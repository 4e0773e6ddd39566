/** Call arguments on their way to the ABI encoder: `normalizeArg`, then
    `coerceForEthers`, over nested tuples, tuple arrays and address arrays. */
module AddressArgs {
  import opened Common
  import opened AbiSignatures
  import BigIntJson

  /** The 20 bytes of an address. */
  type Addr = nat

  /** A text that spells an address, in base58check or as `0x` hex in some letter
      case (zero for the lower case the codec prints), or any other text. The codec
      itself is not modelled: a spelling stands for the address it decodes to. */
  datatype Text = Base58(addr: Addr) | Hex(addr: Addr, letterCase: nat) | Other(s: string)

  /** A JavaScript argument: string, BigInt, other primitive, array, struct object,
      signer or contract object, or an `ethers.Typed` wrapper. */
  datatype Val =
    | VText(text: Text)
    | VBig(n: int)
    | VPrimitive(s: string)
    | VArr(items: seq<Val>)
    | VObj(members: seq<Member>)
    | VAddressable(address: Text)
    | VTyped(typ: string, value: Val)

  datatype Member = Member(key: string, value: Val)

  /** Predicted address to the one really deployed. */
  type Mapping = map<Addr, Addr>

  // ---- The code ----

  function AsAddressString(v: Val): Val {
    match v
    case VTyped(_, value) => AsAddressString(value)
    case VAddressable(text) => VText(text)
    case _ => v
  }

  /** `lookupTvmActualBase58`, on what `asAddressString` returns. */
  function LookupActual(v: Val, m: Mapping): Option<Addr> {
    match v
    case VText(Base58(a)) => if a in m then Some(m[a]) else None
    case VText(Hex(a, _)) => if a in m then Some(m[a]) else None
    case _ => None
  }

  function Remapped(v: Val, m: Mapping): Val {
    var text := AsAddressString(v);
    var actual := LookupActual(text, m);
    if actual.Some? then VText(Base58(actual.value)) else text
  }

  function ToTronBase58(v: Val): Val {
    match v
    case VText(Hex(a, _)) => VText(Base58(a))
    case _ => v
  }

  /** `'0x' + TronWeb.address.toHex(v).slice(2)` if base58, else unchanged. */
  function ToHexIfBase58(v: Val): Val {
    match v
    case VText(Base58(a)) => VText(Hex(a, 0))
    case _ => v
  }

  function NormalizeAddress(v: Val, nested: bool, m: Mapping): Val {
    if nested then ToHexIfBase58(Remapped(v, m)) else ToTronBase58(Remapped(v, m))
  }

  predicate TupleArrayType(typ: string) {
    "tuple[" <= typ
  }

  lemma TupleArrayTypeIsNoOther(typ: string)
    requires TupleArrayType(typ)
    ensures typ != "tuple" && typ != "address" && typ != "address[]" && !("address[" <= typ)
  {
    assert typ[0] == "tuple["[0] == 't' && "address["[0] == 'a';
  }

  function InnerTuple(input: AbiInput): AbiInput
    requires input.Compound?
  {
    Compound("", "tuple", input.components)
  }

  function NormalizeArg(v: Val, input: AbiInput, nested: bool, m: Mapping): Val
    decreases v, 1, 0
  {
    if v.VTyped? then NormalizeArg(v.value, input, nested, m)
    else if input.typ == "address" then NormalizeAddress(v, nested, m)
    else if input.typ == "address[]" then
      if v.VArr? then VArr(NormalizeAddresses(v.items, nested, m)) else v
    else if input.typ == "tuple" && input.Compound? && v.VArr? then
      VArr(NormalizeComponents(v.items, input.components, m))
    else if input.typ == "tuple" && input.Compound? && v.VObj? then
      VObj(NormalizeMembers(v.members, input.components, m))
    else if TupleArrayType(input.typ) && input.Compound? then
      if v.VArr? then VArr(NormalizeElements(v.items, InnerTuple(input), m)) else v
    else if v.VBig? then VText(Other(BigIntJson.Dec(v.n)))
    else v
  }

  function NormalizeAddresses(vs: seq<Val>, nested: bool, m: Mapping): (r: seq<Val>)
    ensures |r| == |vs|
  {
    if vs == [] then [] else [NormalizeAddress(vs[0], nested, m)] + NormalizeAddresses(vs[1..], nested, m)
  }

  /** Elements past the components have no descriptor and stay as they are. */
  function NormalizeComponents(vs: seq<Val>, inputs: seq<AbiInput>, m: Mapping): (r: seq<Val>)
    ensures |r| == |vs|
    decreases vs, 0, 0
  {
    if vs == [] then []
    else if inputs == [] then vs
    else [NormalizeArg(vs[0], inputs[0], true, m)] + NormalizeComponents(vs[1..], inputs[1..], m)
  }

  function NormalizeElements(vs: seq<Val>, inner: AbiInput, m: Mapping): (r: seq<Val>)
    ensures |r| == |vs|
    decreases vs, 0, 0
  {
    if vs == [] then [] else [NormalizeArg(vs[0], inner, true, m)] + NormalizeElements(vs[1..], inner, m)
  }

  function Index(ms: seq<Member>, key: string): (i: nat)
    ensures i <= |ms| && (i < |ms| ==> ms[i].key == key)
    ensures forall j :: 0 <= j < i ==> ms[j].key != key
  {
    if ms == [] || ms[0].key == key then 0 else 1 + Index(ms[1..], key)
  }

  predicate Has(ms: seq<Member>, key: string) {
    Index(ms, key) < |ms|
  }

  /** Only named components that the object has, in component order. */
  function NormalizeMembers(ms: seq<Member>, inputs: seq<AbiInput>, m: Mapping): seq<Member>
    decreases ms, 0, |inputs|
  {
    if inputs == [] then []
    else
      var name := inputs[0].name;
      var rest := NormalizeMembers(ms, inputs[1..], m);
      if name != "" && Has(ms, name)
      then [Member(name, NormalizeArg(ms[Index(ms, name)].value, inputs[0], true, m))] + rest
      else rest
  }

  function CoerceForEthers(v: Val, input: AbiInput): Val
    decreases v, 1, 0
  {
    if input.typ == "address" then ToHexIfBase58(v)
    else if input.typ == "address[]" && v.VArr? then VArr(CoerceAddresses(v.items))
    else if input.typ == "tuple" && input.Compound? && v.VArr? then
      VArr(CoerceComponents(v.items, input.components))
    else if input.typ == "tuple" && input.Compound? && v.VObj? then
      VObj(CoerceMembers(v.members, input.components))
    else if TupleArrayType(input.typ) && input.Compound? && v.VArr? then
      VArr(CoerceElements(v.items, InnerTuple(input)))
    else v
  }

  function CoerceAddresses(vs: seq<Val>): (r: seq<Val>)
    ensures |r| == |vs|
  {
    if vs == [] then [] else [ToHexIfBase58(vs[0])] + CoerceAddresses(vs[1..])
  }

  function CoerceComponents(vs: seq<Val>, inputs: seq<AbiInput>): (r: seq<Val>)
    ensures |r| == |vs|
    decreases vs, 0, 0
  {
    if vs == [] then []
    else if inputs == [] then vs
    else [CoerceForEthers(vs[0], inputs[0])] + CoerceComponents(vs[1..], inputs[1..])
  }

  function CoerceElements(vs: seq<Val>, inner: AbiInput): (r: seq<Val>)
    ensures |r| == |vs|
    decreases vs, 0, 0
  {
    if vs == [] then [] else [CoerceForEthers(vs[0], inner)] + CoerceElements(vs[1..], inner)
  }

  function CoerceMembers(ms: seq<Member>, inputs: seq<AbiInput>): seq<Member>
    decreases ms, 0, |inputs|
  {
    if inputs == [] then []
    else
      var name := inputs[0].name;
      var rest := CoerceMembers(ms, inputs[1..]);
      if name != "" && Has(ms, name)
      then [Member(name, CoerceForEthers(ms[Index(ms, name)].value, inputs[0]))] + rest
      else rest
  }

  // ---- What an argument means ----

  /** The ABI value an argument stands for, lists and records kept apart. */
  datatype Meaning =
    | AddressOf(addr: Addr)
    | LeafOf(v: Val)
    | ListOf(items: seq<Meaning>)
    | RecordOf(fields: seq<Field>)
    | Ill

  datatype Field = Field(name: string, meaning: Meaning)

  function MeaningOfText(text: Text): Meaning {
    match text
    case Base58(a) => AddressOf(a)
    case Hex(a, _) => AddressOf(a)
    case Other(_) => Ill
  }

  /** A wrapper means what its content means, a signer or contract object the address
      its own text spells. */
  function MeaningOfAddress(v: Val): (r: Meaning)
    ensures r.AddressOf? || r.Ill?
  {
    match v
    case VTyped(_, content) => MeaningOfAddress(content)
    case VAddressable(text) => MeaningOfText(text)
    case VText(text) => MeaningOfText(text)
    case _ => Ill
  }

  /** Address arrays the passes do not reach into, of fixed size or more dimensions. */
  predicate OtherAddressArray(typ: string) {
    "address[" <= typ && typ != "address[]"
  }

  /** A list of anything but tuples and addresses; the passes leave it as it is. */
  predicate LeafList(typ: string) {
    '[' in typ
  }

  predicate NamesDistinct(inputs: seq<AbiInput>) {
    forall i, j :: 0 <= i < j < |inputs| ==> inputs[i].name != inputs[j].name
  }

  /** `Ill` marks what is no value of the type: not an address, not a list where one
      belongs or the other way round, too few or too many components, a missing struct
      member, a struct whose components do not have names of their own. It also marks
      every value of the types the passes do not handle: other address arrays, and
      tuples without components. */
  function MeaningOf(v: Val, input: AbiInput): Meaning
    decreases v, 1, 0
  {
    if v.VTyped? then MeaningOf(v.value, input)
    else if input.typ == "address" then MeaningOfAddress(v)
    else if input.typ == "address[]" then
      if v.VArr? then ListOf(MeaningOfAddresses(v.items)) else Ill
    else if OtherAddressArray(input.typ) then Ill
    else if input.typ == "tuple" && input.Compound? then
      if v.VArr? && |v.items| == |input.components| then ListOf(MeaningOfComponents(v.items, input.components))
      else if v.VObj? && NamesDistinct(input.components) then RecordOf(MeaningOfMembers(v.members, input.components))
      else Ill
    else if TupleArrayType(input.typ) && input.Compound? then
      if v.VArr? && TupleSuffix(input.typ).Some? then ListOf(MeaningOfElements(v.items, InnerTuple(input))) else Ill
    else if input.typ == "tuple" || TupleArrayType(input.typ) then Ill
    else if v.VObj? || v.VArr? != LeafList(input.typ) then Ill
    else if v.VBig? then LeafOf(VText(Other(BigIntJson.Dec(v.n))))
    else LeafOf(v)
  }

  function MeaningOfAddresses(vs: seq<Val>): (r: seq<Meaning>)
    ensures |r| == |vs|
  {
    if vs == [] then [] else [MeaningOfAddress(vs[0])] + MeaningOfAddresses(vs[1..])
  }

  function MeaningOfComponents(vs: seq<Val>, inputs: seq<AbiInput>): (r: seq<Meaning>)
    requires |vs| == |inputs|
    decreases vs, 0, 0
  {
    if vs == [] then [] else [MeaningOf(vs[0], inputs[0])] + MeaningOfComponents(vs[1..], inputs[1..])
  }

  function MeaningOfElements(vs: seq<Val>, inner: AbiInput): seq<Meaning>
    decreases vs, 0, 0
  {
    if vs == [] then [] else [MeaningOf(vs[0], inner)] + MeaningOfElements(vs[1..], inner)
  }

  function MeaningOfMembers(ms: seq<Member>, inputs: seq<AbiInput>): seq<Field>
    decreases ms, 0, |inputs|
  {
    if inputs == [] then []
    else
      var name := inputs[0].name;
      var field := if name != "" && Has(ms, name) then MeaningOf(ms[Index(ms, name)].value, inputs[0]) else Ill;
      [Field(name, field)] + MeaningOfMembers(ms, inputs[1..])
  }

  /** Some meaning, at every depth. */
  predicate Proper(x: Meaning)
    decreases x, 1
  {
    match x
    case Ill => false
    case ListOf(items) => AllProper(items)
    case RecordOf(fields) => FieldsProper(fields)
    case _ => true
  }

  predicate AllProper(xs: seq<Meaning>)
    decreases xs, 0
  {
    xs == [] || (Proper(xs[0]) && AllProper(xs[1..]))
  }

  predicate FieldsProper(fs: seq<Field>)
    decreases fs, 0
  {
    fs == [] || (Proper(fs[0].meaning) && FieldsProper(fs[1..]))
  }

  /** The predicted-to-actual rewrite of every address in a meaning. */
  function Rewritten(x: Meaning, m: Mapping): Meaning
    decreases x, 1
  {
    match x
    case AddressOf(a) => AddressOf(if a in m then m[a] else a)
    case ListOf(items) => ListOf(AllRewritten(items, m))
    case RecordOf(fields) => RecordOf(FieldsRewritten(fields, m))
    case _ => x
  }

  function AllRewritten(xs: seq<Meaning>, m: Mapping): seq<Meaning>
    decreases xs, 0
  {
    if xs == [] then [] else [Rewritten(xs[0], m)] + AllRewritten(xs[1..], m)
  }

  function FieldsRewritten(fs: seq<Field>, m: Mapping): seq<Field>
    decreases fs, 0
  {
    if fs == [] then [] else [Field(fs[0].name, Rewritten(fs[0].meaning, m))] + FieldsRewritten(fs[1..], m)
  }

  /** No wrapper and no BigInt, at any depth. */
  predicate Clean(v: Val)
    decreases v, 1
  {
    match v
    case VTyped(_, _) => false
    case VBig(_) => false
    case VArr(items) => AllItemsClean(items)
    case VObj(members) => AllMembersClean(members)
    case _ => true
  }

  predicate AllItemsClean(vs: seq<Val>)
    decreases vs, 0
  {
    vs == [] || (Clean(vs[0]) && AllItemsClean(vs[1..]))
  }

  predicate AllMembersClean(ms: seq<Member>)
    decreases ms, 0
  {
    ms == [] || (Clean(ms[0].value) && AllMembersClean(ms[1..]))
  }

  /** How addresses are spelled. The first pass leaves base58 at the top and hex inside
      tuples; the encoder takes hex only. */
  datatype Form = AsBase58 | AsHex | AsEither

  predicate Spells(v: Val, form: Form) {
    v.VText? &&
    match form
    case AsBase58 => v.text.Base58?
    case AsHex => v.text.Hex?
    case AsEither => !v.text.Other?
  }

  function Within(form: Form): Form {
    if form == AsBase58 then AsHex else form
  }

  /** Every address is spelled in this form, and outside lists of other things there is
      no wrapper and no BigInt left. */
  predicate InForm(v: Val, input: AbiInput, form: Form)
    decreases v, 1, 0
  {
    if v.VTyped? then false
    else if input.typ == "address" then Spells(v, form)
    else if input.typ == "address[]" then v.VArr? && forall i :: 0 <= i < |v.items| ==> Spells(v.items[i], form)
    else if input.typ == "tuple" && input.Compound? && v.VArr? then
      ComponentsInForm(v.items, input.components, Within(form))
    else if input.typ == "tuple" && input.Compound? && v.VObj? then
      NamesDistinct(input.components) && MembersInForm(v.members, input.components, Within(form))
    else if TupleArrayType(input.typ) && input.Compound? then
      v.VArr? && ElementsInForm(v.items, InnerTuple(input), Within(form))
    else !v.VBig?
  }

  predicate ComponentsInForm(vs: seq<Val>, inputs: seq<AbiInput>, form: Form)
    decreases vs, 0, 0
  {
    |vs| == |inputs| &&
    (vs == [] || (InForm(vs[0], inputs[0], form) && ComponentsInForm(vs[1..], inputs[1..], form)))
  }

  predicate ElementsInForm(vs: seq<Val>, inner: AbiInput, form: Form)
    decreases vs, 0, 0
  {
    vs == [] || (InForm(vs[0], inner, form) && ElementsInForm(vs[1..], inner, form))
  }

  predicate MembersInForm(ms: seq<Member>, inputs: seq<AbiInput>, form: Form)
    decreases ms, 0, |inputs|
  {
    inputs == [] ||
    (inputs[0].name != "" && Has(ms, inputs[0].name) &&
     InForm(ms[Index(ms, inputs[0].name)].value, inputs[0], form) && MembersInForm(ms, inputs[1..], form))
  }

  /** Fit for the encoder: every address is `0x` hex, and no wrapper and no BigInt is
      left anywhere. */
  predicate EncoderReady(v: Val, input: AbiInput) {
    InForm(v, input, AsHex) && ListsClean(v, input)
  }

  /** The lists of other things in a value hold no wrapper and no BigInt to begin with. */
  predicate ListsClean(v: Val, input: AbiInput)
    decreases v, 1, 0
  {
    if v.VTyped? then ListsClean(v.value, input)
    else if input.typ == "address" || input.typ == "address[]" then true
    else if input.typ == "tuple" && input.Compound? && v.VArr? then ComponentListsClean(v.items, input.components)
    else if input.typ == "tuple" && input.Compound? && v.VObj? then MemberListsClean(v.members, input.components)
    else if TupleArrayType(input.typ) && input.Compound? && v.VArr? then ElementListsClean(v.items, InnerTuple(input))
    else v.VArr? ==> Clean(v)
  }

  predicate ComponentListsClean(vs: seq<Val>, inputs: seq<AbiInput>)
    decreases vs, 0, 0
  {
    vs == [] || inputs == [] || (ListsClean(vs[0], inputs[0]) && ComponentListsClean(vs[1..], inputs[1..]))
  }

  predicate ElementListsClean(vs: seq<Val>, inner: AbiInput)
    decreases vs, 0, 0
  {
    vs == [] || (ListsClean(vs[0], inner) && ElementListsClean(vs[1..], inner))
  }

  predicate MemberListsClean(ms: seq<Member>, inputs: seq<AbiInput>)
    decreases ms, 0, |inputs|
  {
    inputs == [] ||
    ((Has(ms, inputs[0].name) ==> ListsClean(ms[Index(ms, inputs[0].name)].value, inputs[0])) &&
     MemberListsClean(ms, inputs[1..]))
  }

  // ---- The passes preserve the meaning, up to the rewrite ----

  function FormOf(nested: bool): Form {
    if nested then AsHex else AsBase58
  }

  /** For every argument that has a meaning for its descriptor, at top level or
      nested: after both passes its meaning is the same with every address rewritten,
      its shape included. It is fit for the encoder exactly when its lists of other
      things held no wrapper and no BigInt, since the passes do not reach into those. */
  lemma ArgumentsKeepMeaning(v: Val, input: AbiInput, nested: bool, m: Mapping)
    requires Proper(MeaningOf(v, input))
    ensures var w := CoerceForEthers(NormalizeArg(v, input, nested, m), input);
            && MeaningOf(w, input) == Rewritten(MeaningOf(v, input), m)
            && (EncoderReady(w, input) <==> ListsClean(v, input))
  {
    NormalizeKeepsMeaning(v, input, nested, m);
    CoerceKeepsMeaning(NormalizeArg(v, input, nested, m), input, FormOf(nested));
  }

  // ---- The first pass ----

  /** `normalizeArg` alone rewrites every address of the meaning and changes nothing
      else of it; addresses come out as base58 at top level and as hex inside tuples. */
  lemma {:induction false} NormalizeKeepsMeaning(v: Val, input: AbiInput, nested: bool, m: Mapping)
    requires Proper(MeaningOf(v, input))
    ensures var w := NormalizeArg(v, input, nested, m);
            && MeaningOf(w, input) == Rewritten(MeaningOf(v, input), m)
            && InForm(w, input, FormOf(nested)) && (ListsClean(w, input) <==> ListsClean(v, input))
    decreases v, 1
  {
    if v.VTyped? {
      NormalizeKeepsMeaning(v.value, input, nested, m);
    } else if input.typ == "address" {
      AddressNormalized(v, nested, m);
    } else if input.typ == "address[]" {
      AddressesNormalized(v.items, nested, m);
    } else if input.typ == "tuple" {
      TupleNormalized(v, input, nested, m);
    } else if TupleArrayType(input.typ) {
      TupleArrayNormalized(v, input, nested, m);
    }
  }

  lemma {:induction false} AddressTextMeans(v: Val)
    requires MeaningOfAddress(v).AddressOf?
    ensures AsAddressString(v).VText? && MeaningOfText(AsAddressString(v).text) == MeaningOfAddress(v)
  {
    if v.VTyped? {
      AddressTextMeans(v.value);
    }
  }

  lemma AddressNormalized(v: Val, nested: bool, m: Mapping)
    requires MeaningOfAddress(v).AddressOf?
    ensures var w := NormalizeAddress(v, nested, m);
            Spells(w, FormOf(nested)) && MeaningOfAddress(w) == Rewritten(MeaningOfAddress(v), m)
  {
    AddressTextMeans(v);
  }

  lemma {:induction false} AddressesNormalized(vs: seq<Val>, nested: bool, m: Mapping)
    requires AllProper(MeaningOfAddresses(vs))
    ensures var ws := NormalizeAddresses(vs, nested, m);
            && (forall i :: 0 <= i < |ws| ==> Spells(ws[i], FormOf(nested)))
            && MeaningOfAddresses(ws) == AllRewritten(MeaningOfAddresses(vs), m)
  {
    if vs != [] {
      var xs, ws := MeaningOfAddresses(vs), NormalizeAddresses(vs, nested, m);
      assert xs[0] == MeaningOfAddress(vs[0]) && xs[1..] == MeaningOfAddresses(vs[1..]);
      AddressNormalized(vs[0], nested, m);
      AddressesNormalized(vs[1..], nested, m);
      assert ws[1..] == NormalizeAddresses(vs[1..], nested, m);
    }
  }

  lemma {:induction false} TupleNormalized(v: Val, input: AbiInput, nested: bool, m: Mapping)
    requires Proper(MeaningOf(v, input)) && input.typ == "tuple" && !v.VTyped?
    ensures var w := NormalizeArg(v, input, nested, m);
            && MeaningOf(w, input) == Rewritten(MeaningOf(v, input), m)
            && InForm(w, input, FormOf(nested)) && (ListsClean(w, input) <==> ListsClean(v, input))
    decreases v, 0
  {
    if v.VArr? {
      ComponentsNormalized(v.items, input.components, m);
    } else {
      MembersNormalized(v.members, input.components, m);
    }
  }

  lemma {:induction false} TupleArrayNormalized(v: Val, input: AbiInput, nested: bool, m: Mapping)
    requires Proper(MeaningOf(v, input)) && TupleArrayType(input.typ) && !v.VTyped?
    ensures var w := NormalizeArg(v, input, nested, m);
            && MeaningOf(w, input) == Rewritten(MeaningOf(v, input), m)
            && InForm(w, input, FormOf(nested)) && (ListsClean(w, input) <==> ListsClean(v, input))
    decreases v, 0
  {
    TupleArrayTypeIsNoOther(input.typ);
    ElementsNormalized(v.items, InnerTuple(input), m);
  }

  lemma {:induction false} ComponentsNormalized(vs: seq<Val>, inputs: seq<AbiInput>, m: Mapping)
    requires |vs| == |inputs| && AllProper(MeaningOfComponents(vs, inputs))
    ensures var ws := NormalizeComponents(vs, inputs, m);
            && ComponentsInForm(ws, inputs, AsHex)
            && (ComponentListsClean(ws, inputs) <==> ComponentListsClean(vs, inputs))
            && MeaningOfComponents(ws, inputs) == AllRewritten(MeaningOfComponents(vs, inputs), m)
    decreases vs, 0
  {
    if vs != [] {
      var xs, ws := MeaningOfComponents(vs, inputs), NormalizeComponents(vs, inputs, m);
      assert xs[0] == MeaningOf(vs[0], inputs[0]) && xs[1..] == MeaningOfComponents(vs[1..], inputs[1..]);
      NormalizeKeepsMeaning(vs[0], inputs[0], true, m);
      ComponentsNormalized(vs[1..], inputs[1..], m);
      assert ws[1..] == NormalizeComponents(vs[1..], inputs[1..], m);
    }
  }

  lemma {:induction false} ElementsNormalized(vs: seq<Val>, inner: AbiInput, m: Mapping)
    requires AllProper(MeaningOfElements(vs, inner))
    ensures var ws := NormalizeElements(vs, inner, m);
            && ElementsInForm(ws, inner, AsHex)
            && (ElementListsClean(ws, inner) <==> ElementListsClean(vs, inner))
            && MeaningOfElements(ws, inner) == AllRewritten(MeaningOfElements(vs, inner), m)
    decreases vs, 0
  {
    if vs != [] {
      var xs, ws := MeaningOfElements(vs, inner), NormalizeElements(vs, inner, m);
      assert xs[0] == MeaningOf(vs[0], inner) && xs[1..] == MeaningOfElements(vs[1..], inner);
      NormalizeKeepsMeaning(vs[0], inner, true, m);
      ElementsNormalized(vs[1..], inner, m);
      assert ws[1..] == NormalizeElements(vs[1..], inner, m);
    }
  }

  // ---- The second pass ----

  /** `coerceForEthers` alone, on a value in any form: the meaning stays, and every
      address comes out as hex. */
  lemma {:induction false} CoerceKeepsMeaning(v: Val, input: AbiInput, form: Form)
    requires InForm(v, input, form)
    ensures var w := CoerceForEthers(v, input);
            && MeaningOf(w, input) == MeaningOf(v, input)
            && InForm(w, input, AsHex) && (ListsClean(w, input) <==> ListsClean(v, input))
    decreases v, 1
  {
    if input.typ == "address" {
    } else if input.typ == "address[]" {
      AddressesCoerced(v.items, form);
    } else if input.typ == "tuple" {
      TupleCoerced(v, input, form);
    } else if TupleArrayType(input.typ) && input.Compound? {
      TupleArrayTypeIsNoOther(input.typ);
      ElementsCoerced(v.items, InnerTuple(input), Within(form));
    }
  }

  lemma {:induction false} TupleCoerced(v: Val, input: AbiInput, form: Form)
    requires InForm(v, input, form) && input.typ == "tuple"
    ensures var w := CoerceForEthers(v, input);
            && MeaningOf(w, input) == MeaningOf(v, input)
            && InForm(w, input, AsHex) && (ListsClean(w, input) <==> ListsClean(v, input))
    decreases v, 0
  {
    if input.Compound? && v.VArr? {
      ComponentsCoerced(v.items, input.components, Within(form));
    } else if input.Compound? && v.VObj? {
      MembersCoerced(v.members, input.components, Within(form));
    }
  }

  lemma {:induction false} AddressesCoerced(vs: seq<Val>, form: Form)
    requires forall i :: 0 <= i < |vs| ==> Spells(vs[i], form)
    ensures var ws := CoerceAddresses(vs);
            (forall i :: 0 <= i < |ws| ==> Spells(ws[i], AsHex)) && MeaningOfAddresses(ws) == MeaningOfAddresses(vs)
  {
    if vs != [] {
      AddressesCoerced(vs[1..], form);
      assert CoerceAddresses(vs)[1..] == CoerceAddresses(vs[1..]);
    }
  }

  lemma {:induction false} ComponentsCoerced(vs: seq<Val>, inputs: seq<AbiInput>, form: Form)
    requires ComponentsInForm(vs, inputs, form)
    ensures var ws := CoerceComponents(vs, inputs);
            && ComponentsInForm(ws, inputs, AsHex)
            && (ComponentListsClean(ws, inputs) <==> ComponentListsClean(vs, inputs))
            && MeaningOfComponents(ws, inputs) == MeaningOfComponents(vs, inputs)
    decreases vs, 0
  {
    if vs != [] {
      CoerceKeepsMeaning(vs[0], inputs[0], form);
      ComponentsCoerced(vs[1..], inputs[1..], form);
      assert CoerceComponents(vs, inputs)[1..] == CoerceComponents(vs[1..], inputs[1..]);
    }
  }

  lemma {:induction false} ElementsCoerced(vs: seq<Val>, inner: AbiInput, form: Form)
    requires ElementsInForm(vs, inner, form)
    ensures var ws := CoerceElements(vs, inner);
            && ElementsInForm(ws, inner, AsHex)
            && (ElementListsClean(ws, inner) <==> ElementListsClean(vs, inner))
            && MeaningOfElements(ws, inner) == MeaningOfElements(vs, inner)
    decreases vs, 0
  {
    if vs != [] {
      CoerceKeepsMeaning(vs[0], inner, form);
      ElementsCoerced(vs[1..], inner, form);
      assert CoerceElements(vs, inner)[1..] == CoerceElements(vs[1..], inner);
    }
  }

  /** Base58 becomes lower-case hex; hex stays in the letter case it came in. */
  lemma HexIsLowerCase(a: Addr, letterCase: nat, input: AbiInput)
    requires input.typ == "address"
    ensures CoerceForEthers(VText(Base58(a)), input) == VText(Hex(a, 0))
    ensures CoerceForEthers(VText(Hex(a, letterCase)), input) == VText(Hex(a, letterCase))
  {
  }

  /** Other address arrays go through both passes as they came, base58 and all. */
  lemma OtherAddressArraysPassUnread(v: Val, input: AbiInput, nested: bool, m: Mapping)
    requires OtherAddressArray(input.typ) && v.VArr?
    ensures CoerceForEthers(NormalizeArg(v, input, nested, m), input) == v
  {
    assert "address["[0] == 'a' && "tuple["[0] == 't';
  }

  // ---- Struct objects, member by member ----

  ghost predicate AllPresent(ms: seq<Member>, inputs: seq<AbiInput>) {
    forall j :: 0 <= j < |inputs| ==> inputs[j].name != "" && Has(ms, inputs[j].name)
  }

  lemma {:induction false} NormalizeMembersAt(ms: seq<Member>, inputs: seq<AbiInput>, m: Mapping)
    requires AllPresent(ms, inputs)
    ensures var r := NormalizeMembers(ms, inputs, m);
            |r| == |inputs| &&
            forall j :: 0 <= j < |inputs| ==>
                          r[j] == Member(inputs[j].name,
                                         NormalizeArg(ms[Index(ms, inputs[j].name)].value, inputs[j], true, m))
  {
    if inputs != [] {
      NormalizeMembersAt(ms, inputs[1..], m);
    }
  }

  lemma {:induction false} CoerceMembersAt(ms: seq<Member>, inputs: seq<AbiInput>)
    requires AllPresent(ms, inputs)
    ensures var r := CoerceMembers(ms, inputs);
            |r| == |inputs| &&
            forall j :: 0 <= j < |inputs| ==>
                          r[j] == Member(inputs[j].name,
                                         CoerceForEthers(ms[Index(ms, inputs[j].name)].value, inputs[j]))
  {
    if inputs != [] {
      CoerceMembersAt(ms, inputs[1..]);
    }
  }

  lemma {:induction false} MeaningOfMembersAt(ms: seq<Member>, inputs: seq<AbiInput>)
    ensures var r := MeaningOfMembers(ms, inputs);
            |r| == |inputs| &&
            forall j :: 0 <= j < |inputs| ==>
                          r[j] == Field(inputs[j].name,
                                        if inputs[j].name != "" && Has(ms, inputs[j].name)
                                        then MeaningOf(ms[Index(ms, inputs[j].name)].value, inputs[j]) else Ill)
  {
    if inputs != [] {
      MeaningOfMembersAt(ms, inputs[1..]);
    }
  }

  lemma {:induction false} FieldsAt(fs: seq<Field>, m: Mapping)
    ensures |FieldsRewritten(fs, m)| == |fs|
    ensures forall j :: 0 <= j < |fs| ==>
                          FieldsRewritten(fs, m)[j] == Field(fs[j].name, Rewritten(fs[j].meaning, m))
    ensures FieldsProper(fs) ==> forall j :: 0 <= j < |fs| ==> Proper(fs[j].meaning)
  {
    if fs != [] {
      FieldsAt(fs[1..], m);
    }
  }

  lemma {:induction false} MembersInFormAt(ms: seq<Member>, inputs: seq<AbiInput>, form: Form)
    ensures MembersInForm(ms, inputs, form) <==>
            AllPresent(ms, inputs) &&
            forall j :: 0 <= j < |inputs| ==> InForm(ms[Index(ms, inputs[j].name)].value, inputs[j], form)
  {
    if inputs != [] {
      MembersInFormAt(ms, inputs[1..], form);
      assert forall j :: 0 < j < |inputs| ==> inputs[j] == inputs[1..][j - 1];
    }
  }

  lemma {:induction false} MemberListsCleanAt(ms: seq<Member>, inputs: seq<AbiInput>)
    ensures MemberListsClean(ms, inputs) <==>
            forall j :: 0 <= j < |inputs| && Has(ms, inputs[j].name) ==>
                          ListsClean(ms[Index(ms, inputs[j].name)].value, inputs[j])
  {
    if inputs != [] {
      MemberListsCleanAt(ms, inputs[1..]);
      assert forall j :: 0 < j < |inputs| ==> inputs[j] == inputs[1..][j - 1];
    }
  }

  /** A record whose keys are the component names in order is looked up by position. */
  lemma {:induction false} KeyedAt(ms: seq<Member>, inputs: seq<AbiInput>, j: nat)
    requires NamesDistinct(inputs) && j < |ms| == |inputs|
    requires forall i :: 0 <= i < |inputs| ==> ms[i].key == inputs[i].name
    ensures Index(ms, inputs[j].name) == j
  {
    if j > 0 {
      assert ms[0].key == inputs[0].name;
      KeyedAt(ms[1..], inputs[1..], j - 1);
    }
  }

  lemma KeyedInOrder(ms: seq<Member>, inputs: seq<AbiInput>)
    requires NamesDistinct(inputs) && |ms| == |inputs|
    requires forall j :: 0 <= j < |inputs| ==> ms[j].key == inputs[j].name && inputs[j].name != ""
    ensures AllPresent(ms, inputs)
    ensures forall j :: 0 <= j < |inputs| ==> Index(ms, inputs[j].name) == j
  {
    forall j | 0 <= j < |inputs|
      ensures Index(ms, inputs[j].name) == j
    {
      KeyedAt(ms, inputs, j);
    }
  }

  lemma {:induction false} MembersNormalized(ms: seq<Member>, inputs: seq<AbiInput>, m: Mapping)
    requires NamesDistinct(inputs) && FieldsProper(MeaningOfMembers(ms, inputs))
    ensures var ws := NormalizeMembers(ms, inputs, m);
            && MembersInForm(ws, inputs, AsHex) && (MemberListsClean(ws, inputs) <==> MemberListsClean(ms, inputs))
            && MeaningOfMembers(ws, inputs) == FieldsRewritten(MeaningOfMembers(ms, inputs), m)
    decreases ms, 0
  {
    var fs, ws := MeaningOfMembers(ms, inputs), NormalizeMembers(ms, inputs, m);
    MeaningOfMembersAt(ms, inputs);
    FieldsAt(fs, m);
    assert AllPresent(ms, inputs) by {
      forall j | 0 <= j < |inputs|
        ensures inputs[j].name != "" && Has(ms, inputs[j].name)
      {
        assert Proper(fs[j].meaning);
      }
    }
    NormalizeMembersAt(ms, inputs, m);
    KeyedInOrder(ws, inputs);
    MeaningOfMembersAt(ws, inputs);
    forall j | 0 <= j < |inputs|
      ensures InForm(ws[j].value, inputs[j], AsHex)
      ensures ListsClean(ws[j].value, inputs[j]) <==> ListsClean(ms[Index(ms, inputs[j].name)].value, inputs[j])
      ensures MeaningOf(ws[j].value, inputs[j]) == Rewritten(fs[j].meaning, m)
    {
      assert Proper(fs[j].meaning);
      NormalizeKeepsMeaning(ms[Index(ms, inputs[j].name)].value, inputs[j], true, m);
    }
    MembersInFormAt(ws, inputs, AsHex);
    MemberListsCleanAt(ms, inputs);
    MemberListsCleanAt(ws, inputs);
    assert forall j :: 0 <= j < |inputs| ==> MeaningOfMembers(ws, inputs)[j] == FieldsRewritten(fs, m)[j];
  }

  lemma {:induction false} MembersCoerced(ms: seq<Member>, inputs: seq<AbiInput>, form: Form)
    requires NamesDistinct(inputs) && MembersInForm(ms, inputs, form)
    ensures var ws := CoerceMembers(ms, inputs);
            && MembersInForm(ws, inputs, AsHex) && (MemberListsClean(ws, inputs) <==> MemberListsClean(ms, inputs))
            && MeaningOfMembers(ws, inputs) == MeaningOfMembers(ms, inputs)
    decreases ms, 0
  {
    var ws := CoerceMembers(ms, inputs);
    MembersInFormAt(ms, inputs, form);
    CoerceMembersAt(ms, inputs);
    KeyedInOrder(ws, inputs);
    MeaningOfMembersAt(ms, inputs);
    MeaningOfMembersAt(ws, inputs);
    forall j | 0 <= j < |inputs|
      ensures InForm(ws[j].value, inputs[j], AsHex)
      ensures ListsClean(ws[j].value, inputs[j]) <==> ListsClean(ms[Index(ms, inputs[j].name)].value, inputs[j])
      ensures MeaningOf(ws[j].value, inputs[j]) == MeaningOf(ms[Index(ms, inputs[j].name)].value, inputs[j])
    {
      CoerceKeepsMeaning(ms[Index(ms, inputs[j].name)].value, inputs[j], form);
    }
    MembersInFormAt(ws, inputs, AsHex);
    MemberListsCleanAt(ms, inputs);
    MemberListsCleanAt(ws, inputs);
    assert forall j :: 0 <= j < |inputs| ==> MeaningOfMembers(ws, inputs)[j] == MeaningOfMembers(ms, inputs)[j];
  }

  // ---- The descriptors whose every value comes out fit for the encoder ----

  /** The descriptor has values at all. */
  predicate Handled(input: AbiInput)
    decreases input, 1
  {
    if input.typ == "tuple" || TupleArrayType(input.typ)
    then input.Compound? && (input.typ == "tuple" || TupleSuffix(input.typ).Some?) && AllHandled(input.components)
    else !OtherAddressArray(input.typ)
  }

  predicate AllHandled(inputs: seq<AbiInput>)
    decreases inputs, 0
  {
    inputs == [] || (Handled(inputs[0]) && AllHandled(inputs[1..]))
  }

  /** At no depth a list of anything but tuples and addresses. */
  predicate NoLeafLists(input: AbiInput)
    decreases input, 1
  {
    if (input.typ == "tuple" || TupleArrayType(input.typ)) && input.Compound? then NoneWithLeafLists(input.components)
    else input.typ == "address[]" || !LeafList(input.typ)
  }

  predicate NoneWithLeafLists(inputs: seq<AbiInput>)
    decreases inputs, 0
  {
    inputs == [] || (NoLeafLists(inputs[0]) && NoneWithLeafLists(inputs[1..]))
  }

  /** A value of the descriptor with a BigInt in every leaf list. */
  function Sample(input: AbiInput): Val
    decreases input, 1
  {
    if input.typ == "address" then VText(Hex(0, 0))
    else if input.typ == "address[]" then VArr([])
    else if input.typ == "tuple" && input.Compound? then VArr(Samples(input.components))
    else if TupleArrayType(input.typ) && input.Compound? then VArr([VArr(Samples(input.components))])
    else if LeafList(input.typ) then VArr([VBig(0)])
    else VPrimitive("")
  }

  function Samples(inputs: seq<AbiInput>): (r: seq<Val>)
    ensures |r| == |inputs|
    decreases inputs, 0
  {
    if inputs == [] then [] else [Sample(inputs[0])] + Samples(inputs[1..])
  }

  lemma {:induction false} SampleMeans(input: AbiInput)
    requires Handled(input)
    ensures Proper(MeaningOf(Sample(input), input))
    ensures ListsClean(Sample(input), input) <==> NoLeafLists(input)
    decreases input, 1
  {
    if input.typ == "tuple" || TupleArrayType(input.typ) {
      SamplesMean(input.components);
    }
    if TupleArrayType(input.typ) {
      TupleArrayTypeIsNoOther(input.typ);
      OneElement(Samples(input.components), input);
    }
  }

  lemma OneElement(vs: seq<Val>, input: AbiInput)
    requires TupleArrayType(input.typ) && TupleSuffix(input.typ).Some? && input.Compound? && |vs| == |input.components|
    ensures Proper(MeaningOf(VArr([VArr(vs)]), input)) <==> AllProper(MeaningOfComponents(vs, input.components))
    ensures ListsClean(VArr([VArr(vs)]), input) <==> ComponentListsClean(vs, input.components)
  {
    TupleArrayTypeIsNoOther(input.typ);
    var v, inner := VArr(vs), InnerTuple(input);
    assert MeaningOf(v, inner) == ListOf(MeaningOfComponents(vs, input.components));
    assert ListsClean(v, inner) <==> ComponentListsClean(vs, input.components);
    Singleton(v, inner);
  }

  lemma Singleton(v: Val, inner: AbiInput)
    ensures AllProper(MeaningOfElements([v], inner)) <==> Proper(MeaningOf(v, inner))
    ensures ElementListsClean([v], inner) <==> ListsClean(v, inner)
  {
    assert [v][1..] == [];
    var xs := MeaningOfElements([v], inner);
    assert MeaningOfElements([v][1..], inner) == [];
    assert xs == [MeaningOf(v, inner)] && xs[1..] == [];
  }

  lemma {:induction false} SamplesMean(inputs: seq<AbiInput>)
    requires AllHandled(inputs)
    ensures AllProper(MeaningOfComponents(Samples(inputs), inputs))
    ensures ComponentListsClean(Samples(inputs), inputs) <==> NoneWithLeafLists(inputs)
    decreases inputs, 0
  {
    if inputs != [] {
      SampleMeans(inputs[0]);
      SamplesMean(inputs[1..]);
      var vs := Samples(inputs);
      assert vs[0] == Sample(inputs[0]) && vs[1..] == Samples(inputs[1..]);
      var xs := MeaningOfComponents(vs, inputs);
      assert xs[0] == MeaningOf(vs[0], inputs[0]) && xs[1..] == MeaningOfComponents(vs[1..], inputs[1..]);
    }
  }

  lemma {:induction false} NoLeafListsAreClean(v: Val, input: AbiInput)
    requires Proper(MeaningOf(v, input)) && NoLeafLists(input)
    ensures ListsClean(v, input)
    decreases v, 1, 0
  {
    if v.VTyped? {
      NoLeafListsAreClean(v.value, input);
    } else if input.typ == "tuple" && input.Compound? && v.VArr? {
      ComponentsAreClean(v.items, input.components);
    } else if input.typ == "tuple" && input.Compound? && v.VObj? {
      MembersAreClean(v.members, input.components);
    } else if TupleArrayType(input.typ) && input.Compound? {
      TupleArrayTypeIsNoOther(input.typ);
      ElementsAreClean(v.items, InnerTuple(input));
    }
  }

  lemma {:induction false} ComponentsAreClean(vs: seq<Val>, inputs: seq<AbiInput>)
    requires |vs| == |inputs| && AllProper(MeaningOfComponents(vs, inputs)) && NoneWithLeafLists(inputs)
    ensures ComponentListsClean(vs, inputs)
    decreases vs, 0, 0
  {
    if vs != [] {
      var xs := MeaningOfComponents(vs, inputs);
      assert xs[0] == MeaningOf(vs[0], inputs[0]) && xs[1..] == MeaningOfComponents(vs[1..], inputs[1..]);
      NoLeafListsAreClean(vs[0], inputs[0]);
      ComponentsAreClean(vs[1..], inputs[1..]);
    }
  }

  lemma {:induction false} ElementsAreClean(vs: seq<Val>, inner: AbiInput)
    requires AllProper(MeaningOfElements(vs, inner)) && NoLeafLists(inner)
    ensures ElementListsClean(vs, inner)
    decreases vs, 0, 0
  {
    if vs != [] {
      var xs := MeaningOfElements(vs, inner);
      assert xs[0] == MeaningOf(vs[0], inner) && xs[1..] == MeaningOfElements(vs[1..], inner);
      NoLeafListsAreClean(vs[0], inner);
      ElementsAreClean(vs[1..], inner);
    }
  }

  lemma {:induction false} MembersAreClean(ms: seq<Member>, inputs: seq<AbiInput>)
    requires FieldsProper(MeaningOfMembers(ms, inputs)) && NoneWithLeafLists(inputs)
    ensures MemberListsClean(ms, inputs)
    decreases ms, 0, |inputs|
  {
    if inputs != [] {
      var fs := MeaningOfMembers(ms, inputs);
      assert fs[1..] == MeaningOfMembers(ms, inputs[1..]);
      assert Proper(fs[0].meaning);
      NoLeafListsAreClean(ms[Index(ms, inputs[0].name)].value, inputs[0]);
      MembersAreClean(ms, inputs[1..]);
    }
  }

  /** Both passes make every value of a descriptor fit for the encoder exactly when the
      descriptor has no lists but those of tuples and addresses. */
  lemma ReadyExactly(input: AbiInput, nested: bool, m: Mapping)
    requires Handled(input)
    ensures NoLeafLists(input) <==>
            forall v :: Proper(MeaningOf(v, input)) ==>
                          EncoderReady(CoerceForEthers(NormalizeArg(v, input, nested, m), input), input)
  {
    if NoLeafLists(input) {
      forall v | Proper(MeaningOf(v, input))
        ensures EncoderReady(CoerceForEthers(NormalizeArg(v, input, nested, m), input), input)
      {
        NoLeafListsAreClean(v, input);
        ArgumentsKeepMeaning(v, input, nested, m);
      }
    } else {
      SampleMeans(input);
      ArgumentsKeepMeaning(Sample(input), input, nested, m);
    }
  }
}
