/** Canonical types and signatures of ABI descriptors, and the tables keyed by them. */
module AbiSignatures {
  import opened Common

  /** An ABI input descriptor as solc writes it: a type text, and for tuples and
      their arrays the components. */
  datatype AbiInput =
    | Bare(name: string, typ: string)
    | Compound(name: string, typ: string, components: seq<AbiInput>)

  datatype AbiFunction = AbiFunction(name: string, inputs: seq<AbiInput>)

  // ---- The code's printer and rewriter ----

  /** `/^tuple(\[[^\]]*\])$/`: the bracketed suffix, if the whole type is that. */
  function TupleSuffix(typ: string): Option<string> {
    if |typ| >= 7 && typ[..5] == "tuple" && typ[5] == '[' && typ[|typ| - 1] == ']' && ']' !in typ[6..|typ| - 1]
    then Some(typ[5..]) else None
  }

  function Join(parts: seq<string>): string {
    if parts == [] then "" else if |parts| == 1 then parts[0] else parts[0] + "," + Join(parts[1..])
  }

  function CanonicalType(input: AbiInput): string
    decreases input, 1
  {
    if input.typ == "tuple" && input.Compound? then "(" + Join(CanonicalTypes(input.components)) + ")"
    else
      var suffix := TupleSuffix(input.typ);
      if suffix.Some? && input.Compound?
      then "(" + Join(CanonicalTypes(input.components)) + ")" + suffix.value
      else input.typ
  }

  function CanonicalTypes(inputs: seq<AbiInput>): (r: seq<string>)
    ensures |r| == |inputs|
    decreases inputs, 0
  {
    if inputs == [] then [] else [CanonicalType(inputs[0])] + CanonicalTypes(inputs[1..])
  }

  function CanonicalSig(f: AbiFunction): string {
    f.name + "(" + Join(CanonicalTypes(f.inputs)) + ")"
  }

  /** The deploy path's rewriting of the same descriptors; `None` stands for a
      missing descriptor. */
  function ExpandTupleTypes(input: AbiInput): AbiInput
    decreases input, 1
  {
    if input.typ == "tuple" && input.Compound?
    then input.(typ := "(" + Join(ExpandedTypes(input.components)) + ")")
    else
      var suffix := TupleSuffix(input.typ);
      if suffix.Some? && input.Compound?
      then input.(typ := "(" + Join(ExpandedTypes(input.components)) + ")" + suffix.value)
      else input
  }

  function ExpandedTypes(inputs: seq<AbiInput>): (r: seq<string>)
    ensures |r| == |inputs|
    decreases inputs, 0
  {
    if inputs == [] then [] else [ExpandTupleTypes(inputs[0]).typ] + ExpandedTypes(inputs[1..])
  }

  lemma {:induction false} ExpandIsCanonical(input: AbiInput)
    ensures ExpandTupleTypes(input).typ == CanonicalType(input)
    decreases input, 1
  {
    if input.Compound? {
      ExpandAllCanonical(input.components);
    }
  }

  lemma {:induction false} ExpandAllCanonical(inputs: seq<AbiInput>)
    ensures ExpandedTypes(inputs) == CanonicalTypes(inputs)
    decreases inputs, 0
  {
    if inputs != [] {
      ExpandIsCanonical(inputs[0]);
      ExpandAllCanonical(inputs[1..]);
    }
  }

  /** Expanding twice is expanding once, and only the type text changes. */
  lemma ExpandIdempotent(input: AbiInput)
    ensures ExpandTupleTypes(ExpandTupleTypes(input)) == ExpandTupleTypes(input)
    ensures ExpandTupleTypes(input) == input.(typ := CanonicalType(input))
  {
    ExpandIsCanonical(input);
    var once := ExpandTupleTypes(input);
    if once != input {
      assert once.typ[0] == '(';
    }
  }

  // ---- What a descriptor says: the tree of its types ----

  /** A tuple with its array suffix (possibly empty), or any other type by name. */
  datatype Tree = Leaf(name: string) | Tuple(parts: seq<Tree>, suffix: string)

  /** The component tree as the code reads it, ignoring parameter names. */
  function TreeOf(input: AbiInput): Tree
    decreases input, 1
  {
    if input.typ == "tuple" && input.Compound? then Tuple(TreesOf(input.components), "")
    else
      var suffix := TupleSuffix(input.typ);
      if suffix.Some? && input.Compound? then Tuple(TreesOf(input.components), suffix.value)
      else Leaf(input.typ)
  }

  function TreesOf(inputs: seq<AbiInput>): (r: seq<Tree>)
    ensures |r| == |inputs|
    decreases inputs, 0
  {
    if inputs == [] then [] else [TreeOf(inputs[0])] + TreesOf(inputs[1..])
  }

  function Print(t: Tree): string
    decreases t, 1
  {
    match t
    case Leaf(name) => name
    case Tuple(parts, suffix) => "(" + Join(PrintAll(parts)) + ")" + suffix
  }

  function PrintAll(ts: seq<Tree>): (r: seq<string>)
    ensures |r| == |ts|
    decreases ts, 0
  {
    if ts == [] then [] else [Print(ts[0])] + PrintAll(ts[1..])
  }

  lemma {:induction false} CanonicalIsPrint(input: AbiInput)
    ensures CanonicalType(input) == Print(TreeOf(input))
    decreases input, 1
  {
    if input.Compound? {
      CanonicalArePrints(input.components);
    }
    assert forall s: string :: s + "" == s;
  }

  lemma {:induction false} CanonicalArePrints(inputs: seq<AbiInput>)
    ensures CanonicalTypes(inputs) == PrintAll(TreesOf(inputs))
    decreases inputs, 0
  {
    if inputs != [] {
      CanonicalIsPrint(inputs[0]);
      CanonicalArePrints(inputs[1..]);
      assert TreesOf(inputs)[1..] == TreesOf(inputs[1..]);
    }
  }

  // ---- A parser that inverts the printer ----

  predicate Delimiter(c: char) {
    c == '(' || c == ')' || c == ','
  }

  predicate Plain(s: string) {
    forall i :: 0 <= i < |s| ==> !Delimiter(s[i])
  }

  /** Names and suffixes contain no delimiter, and a leaf has a name. */
  predicate WellFormed(t: Tree)
    decreases t, 1
  {
    match t
    case Leaf(name) => name != "" && Plain(name)
    case Tuple(parts, suffix) => Plain(suffix) && AllWellFormed(parts)
  }

  predicate AllWellFormed(ts: seq<Tree>)
    decreases ts, 0
  {
    ts == [] || (WellFormed(ts[0]) && AllWellFormed(ts[1..]))
  }

  /** Length of the longest delimiter-free prefix. */
  function PlainPrefix(s: string): (n: nat)
    ensures n <= |s| && Plain(s[..n]) && (n < |s| ==> Delimiter(s[n]))
  {
    if s == "" || Delimiter(s[0]) then 0
    else
      var n := PlainPrefix(s[1..]);
      assert forall i :: 0 < i < 1 + n ==> s[i] == s[1..][..n][i - 1];
      1 + n
  }

  /** Reads one type and returns it with what is left. */
  function ParseType(s: string): (r: Option<(Tree, string)>)
    ensures r.Some? ==> |r.value.1| < |s|
    decreases |s|, 1
  {
    if s == "" then None
    else if s[0] == '(' then
      var inner := ParseParts(s[1..]);
      if inner.None? then None
      else
        var rest := inner.value.1;
        var n := PlainPrefix(rest);
        Some((Tuple(inner.value.0, rest[..n]), rest[n..]))
    else
      var n := PlainPrefix(s);
      if n == 0 then None else Some((Leaf(s[..n]), s[n..]))
  }

  /** Reads a comma-separated list and the closing parenthesis. */
  function ParseParts(s: string): (r: Option<(seq<Tree>, string)>)
    ensures r.Some? ==> |r.value.1| < |s|
    decreases |s|, 3
  {
    if s != "" && s[0] == ')' then Some(([], s[1..])) else ParseSome(s)
  }

  /** The same when at least one type must follow. */
  function ParseSome(s: string): (r: Option<(seq<Tree>, string)>)
    ensures r.Some? ==> |r.value.1| < |s|
    decreases |s|, 2
  {
    var first := ParseType(s);
    if first.None? || first.value.1 == "" then None
    else
      var (t, rest) := first.value;
      if rest[0] == ')' then Some(([t], rest[1..]))
      else if rest[0] != ',' then None
      else
        var more := ParseSome(rest[1..]);
        if more.None? then None else Some(([t] + more.value.0, more.value.1))
  }

  /** A text that may follow a type: nothing, or a comma, or a closing parenthesis. */
  predicate Follow(rest: string) {
    rest == "" || rest[0] == ',' || rest[0] == ')'
  }

  lemma {:induction false} PlainPrefixOf(s: string, rest: string)
    requires Plain(s) && (rest == "" || Delimiter(rest[0]))
    ensures PlainPrefix(s + rest) == |s|
  {
    if s != "" {
      assert (s + rest)[1..] == s[1..] + rest;
      assert forall i :: 0 <= i < |s| - 1 ==> s[1..][i] == s[i + 1];
      PlainPrefixOf(s[1..], rest);
    } else {
      assert s + rest == rest;
    }
  }

  /** The parser reads back any printed tree and stops right after it. */
  lemma {:induction false} ParsePrint(t: Tree, rest: string)
    requires WellFormed(t) && Follow(rest)
    ensures ParseType(Print(t) + rest) == Some((t, rest))
    decreases t, 1
  {
    match t
    case Leaf(name) =>
      PlainPrefixOf(name, rest);
      assert (name + rest)[..|name|] == name && (name + rest)[|name|..] == rest;
    case Tuple(parts, suffix) =>
      var tail := suffix + rest;
      var s := Print(t) + rest;
      assert s[1..] == Join(PrintAll(parts)) + ")" + tail;
      ParsePrintParts(parts, tail);
      PlainPrefixOf(suffix, rest);
      assert tail[..|suffix|] == suffix && tail[|suffix|..] == rest;
  }

  lemma {:induction false} ParsePrintParts(ts: seq<Tree>, rest: string)
    requires AllWellFormed(ts)
    ensures ParseParts(Join(PrintAll(ts)) + ")" + rest) == Some((ts, rest))
    decreases ts, 2
  {
    var s := Join(PrintAll(ts)) + ")" + rest;
    if ts == [] {
      assert s == ")" + rest;
      assert s[1..] == rest;
    } else {
      PrintStarts(ts[0]);
      JoinStarts(PrintAll(ts));
      assert s[0] == Print(ts[0])[0];
      ParsePrintSome(ts, rest);
    }
  }

  lemma {:induction false} ParsePrintSome(ts: seq<Tree>, rest: string)
    requires AllWellFormed(ts) && ts != []
    ensures ParseSome(Join(PrintAll(ts)) + ")" + rest) == Some((ts, rest))
    decreases ts, 0
  {
    var first := Print(ts[0]);
    var s := Join(PrintAll(ts)) + ")" + rest;
    if |ts| == 1 {
      assert s == first + (")" + rest);
      ParsePrint(ts[0], ")" + rest);
      assert (")" + rest)[1..] == rest;
      assert ts == [ts[0]];
    } else {
      var others := Join(PrintAll(ts[1..])) + ")" + rest;
      assert s == first + ("," + others);
      ParsePrint(ts[0], "," + others);
      assert ("," + others)[1..] == others;
      ParsePrintSome(ts[1..], rest);
      assert ts == [ts[0]] + ts[1..];
    }
  }

  lemma PrintStarts(t: Tree)
    requires WellFormed(t)
    ensures Print(t) != "" && Print(t)[0] != ')'
  {
  }

  lemma JoinStarts(parts: seq<string>)
    requires parts != [] && parts[0] != ""
    ensures Join(parts) != "" && Join(parts)[0] == parts[0][0]
  {
  }

  /** Printed trees are uniquely readable. */
  lemma PrintInjective(a: Tree, b: Tree)
    requires WellFormed(a) && WellFormed(b)
    ensures Print(a) == Print(b) <==> a == b
  {
    ParsePrint(a, "");
    ParsePrint(b, "");
    assert Print(a) + "" == Print(a) && Print(b) + "" == Print(b);
  }

  // ---- Unique readability of signatures ----

  predicate WellFormedFunction(f: AbiFunction) {
    Plain(f.name) && AllWellFormed(TreesOf(f.inputs))
  }

  /** Two signatures are equal exactly when the names are and the component type
      trees are, whatever the parameters are called. */
  lemma SignaturesAreUnique(f: AbiFunction, g: AbiFunction)
    requires WellFormedFunction(f) && WellFormedFunction(g)
    ensures CanonicalSig(f) == CanonicalSig(g) <==> f.name == g.name && TreesOf(f.inputs) == TreesOf(g.inputs)
  {
    CanonicalArePrints(f.inputs);
    CanonicalArePrints(g.inputs);
    if CanonicalSig(f) == CanonicalSig(g) {
      SignatureSplits(f);
      SignatureSplits(g);
    }
  }

  /** A signature gives back its name and its trees. */
  lemma SignatureSplits(f: AbiFunction)
    requires WellFormedFunction(f)
    ensures var sig := CanonicalSig(f);
            var n := PlainPrefix(sig);
            n < |sig| && sig[..n] == f.name && ParseParts(sig[n + 1..]) == Some((TreesOf(f.inputs), ""))
  {
    CanonicalArePrints(f.inputs);
    var sig := CanonicalSig(f);
    var tail := "(" + Join(CanonicalTypes(f.inputs)) + ")";
    assert sig == f.name + tail;
    PlainPrefixOf(f.name, tail);
    ParsePrintParts(TreesOf(f.inputs), "");
    assert sig[|f.name| + 1..] == Join(PrintAll(TreesOf(f.inputs))) + ")" + "";
  }
}

/** The types of the Solidity Contract ABI Specification, and when the code's
    canonical type is the specification's. */
module SolidityTypes {
  import opened Common
  import opened Texts
  import opened AbiSignatures

  /** An elementary type, a tuple, or an array with its length text (empty if
      dynamic). */
  datatype SolType = Elem(name: string) | Tup(fields: seq<SolType>) | Arr(elem: SolType, length: string)

  /** Section "Handling tuple types": a tuple's canonical type is its components'
      types in parentheses, followed by the array dimensions. */
  function SpecType(t: SolType): string
    decreases t, 1
  {
    match t
    case Elem(name) => name
    case Tup(fields) => "(" + Join(SpecTypes(fields)) + ")"
    case Arr(elem, length) => SpecType(elem) + "[" + length + "]"
  }

  function SpecTypes(ts: seq<SolType>): (r: seq<string>)
    ensures |r| == |ts|
    decreases ts, 0
  {
    if ts == [] then [] else [SpecType(ts[0])] + SpecTypes(ts[1..])
  }

  /** The `type` text in the compiler's JSON, where every tuple reads "tuple". */
  function TypeText(t: SolType): string {
    match t
    case Elem(name) => name
    case Tup(_) => "tuple"
    case Arr(elem, length) => TypeText(elem) + "[" + length + "]"
  }

  /** The type under all array dimensions, and the text of those dimensions. */
  function Base(t: SolType): (b: SolType)
    ensures !b.Arr? && (b == t || b < t)
  {
    if t.Arr? then Base(t.elem) else t
  }

  function Dimensions(t: SolType): string {
    if t.Arr? then Dimensions(t.elem) + "[" + t.length + "]" else ""
  }

  /** The descriptor the compiler emits for `t`, whatever its parameters are named. */
  predicate Describes(input: AbiInput, t: SolType)
    decreases t, 1
  {
    && input.typ == TypeText(t)
    && (input.Compound? <==> Base(t).Tup?)
    && (input.Compound? ==> DescribesAll(input.components, Base(t).fields))
  }

  predicate DescribesAll(inputs: seq<AbiInput>, ts: seq<SolType>)
    decreases ts, 0
  {
    |inputs| == |ts| && (ts == [] || (Describes(inputs[0], ts[0]) && DescribesAll(inputs[1..], ts[1..])))
  }

  /** Elementary names and lengths as the specification has them. */
  predicate Proper(t: SolType)
    decreases t, 1
  {
    match t
    case Elem(name) => name != "" && Plain(name) && '[' !in name && !("tuple" <= name)
    case Tup(fields) => AllProper(fields)
    case Arr(elem, length) => Proper(elem) && Plain(length) && ']' !in length
  }

  predicate AllProper(ts: seq<SolType>)
    decreases ts, 0
  {
    ts == [] || (Proper(ts[0]) && AllProper(ts[1..]))
  }

  /** No tuple sits under more than one array dimension, at any depth. */
  predicate FlatTupleArrays(t: SolType)
    decreases t, 1
  {
    match t
    case Elem(_) => true
    case Tup(fields) => AllFlat(fields)
    case Arr(elem, _) => Base(elem).Elem? || (elem.Tup? && AllFlat(elem.fields))
  }

  predicate AllFlat(ts: seq<SolType>)
    decreases ts, 0
  {
    ts == [] || (FlatTupleArrays(ts[0]) && AllFlat(ts[1..]))
  }

  /** The tree a type really has. */
  function SpecTree(t: SolType): Tree
    decreases t, 1
  {
    match Base(t)
    case Elem(name) => Leaf(name + Dimensions(t))
    case Tup(fields) => Tuple(SpecTrees(fields), Dimensions(t))
  }

  function SpecTrees(ts: seq<SolType>): (r: seq<Tree>)
    ensures |r| == |ts|
    decreases ts, 0
  {
    if ts == [] then [] else [SpecTree(ts[0])] + SpecTrees(ts[1..])
  }

  lemma {:induction false} SpecIsPrint(t: SolType)
    ensures SpecType(t) == Print(SpecTree(t))
    decreases t, 1
  {
    match t
    case Elem(name) => assert name + "" == name;
    case Tup(fields) =>
      SpecArePrints(fields);
      assert Print(SpecTree(t)) == "(" + Join(PrintAll(SpecTrees(fields))) + ")" + "";
    case Arr(elem, length) =>
      SpecIsPrint(elem);
      var inner := if Base(t).Elem? then Base(t).name else "(" + Join(PrintAll(SpecTrees(Base(t).fields))) + ")";
      Associate(inner, Dimensions(elem), "[" + length + "]");
  }

  lemma {:induction false} SpecArePrints(ts: seq<SolType>)
    ensures SpecTypes(ts) == PrintAll(SpecTrees(ts))
    decreases ts, 0
  {
    if ts != [] {
      SpecIsPrint(ts[0]);
      SpecArePrints(ts[1..]);
      assert SpecTrees(ts)[1..] == SpecTrees(ts[1..]);
    }
  }

  lemma {:induction false} TextSplits(t: SolType)
    ensures TypeText(t) == (if Base(t).Elem? then Base(t).name else "tuple") + Dimensions(t)
    ensures Dimensions(t) == "" <==> !t.Arr?
    ensures t.Arr? ==> |Dimensions(t)| >= 2 && Dimensions(t)[0] == '[' && Dimensions(t)[|Dimensions(t)| - 1] == ']'
  {
    match t
    case Elem(name) => assert name + "" == name;
    case Tup(_) => assert "tuple" + "" == "tuple";
    case Arr(elem, length) =>
      TextSplits(elem);
      Associate(if Base(t).Elem? then Base(t).name else "tuple", Dimensions(elem), "[" + length + "]");
  }

  lemma {:induction false} ProperParts(t: SolType)
    requires Proper(t)
    ensures Proper(Base(t)) && Plain(Dimensions(t))
  {
    if t.Arr? {
      ProperParts(t.elem);
    }
  }

  lemma NotTupleText(name: string, dims: string)
    requires !("tuple" <= name) && '[' !in name && (dims == "" || dims[0] == '[')
    ensures !("tuple" <= name + dims)
  {
    var text := name + dims;
    if |name| >= 5 {
      assert text[..5] == name[..5];
    } else if dims != "" {
      assert text[|name|] == '[';
    } else {
      assert text == name;
    }
  }

  lemma {:induction false} PlainText(t: SolType)
    requires Proper(t)
    ensures TypeText(t) != "" && Plain(TypeText(t))
  {
    if t.Arr? {
      PlainText(t.elem);
    }
  }

  /** How the code's pattern reads a type text. */
  lemma SuffixOfText(t: SolType)
    requires Proper(t)
    ensures Base(t).Elem? ==> TupleSuffix(TypeText(t)).None? && TypeText(t) != "tuple"
    ensures t.Tup? ==> TypeText(t) == "tuple"
    ensures t.Arr? && t.elem.Tup? ==> TypeText(t) != "tuple" && TupleSuffix(TypeText(t)) == Some(Dimensions(t))
    ensures t.Arr? && t.elem.Arr? && Base(t).Tup? ==> TypeText(t) != "tuple" && TupleSuffix(TypeText(t)).None?
  {
    TextSplits(t);
    ProperParts(t);
    var text := TypeText(t);
    if Base(t).Elem? {
      NotTupleText(Base(t).name, Dimensions(t));
    } else if t.Arr? && t.elem.Tup? {
      assert text == "tuple" + ("[" + t.length + "]");
      assert text[6..|text| - 1] == t.length;
      assert text[5..] == Dimensions(t);
    } else if t.Arr? {
      TextSplits(t.elem);
      var at := 4 + |Dimensions(t.elem)|;
      assert text[at] == ']';
      assert text[6..|text| - 1][at - 6] == ']';
    }
  }

  /** The code reads a descriptor as the type's real tree exactly for flat types. */
  lemma {:induction false} TreeIsSpecTree(input: AbiInput, t: SolType)
    requires Describes(input, t) && Proper(t)
    ensures TreeOf(input) == SpecTree(t) <==> FlatTupleArrays(t)
    decreases t, 1
  {
    SuffixOfText(t);
    TextSplits(t);
    ProperParts(t);
    if Base(t).Tup? && (t.Tup? || t.elem.Tup?) {
      TreesAreSpecTrees(input.components, Base(t).fields);
    }
  }

  lemma {:induction false} TreesAreSpecTrees(inputs: seq<AbiInput>, ts: seq<SolType>)
    requires DescribesAll(inputs, ts) && AllProper(ts)
    ensures TreesOf(inputs) == SpecTrees(ts) <==> AllFlat(ts)
    decreases ts, 0
  {
    if ts != [] {
      TreeIsSpecTree(inputs[0], ts[0]);
      TreesAreSpecTrees(inputs[1..], ts[1..]);
      assert TreesOf(inputs)[0] == TreeOf(inputs[0]) && TreesOf(inputs)[1..] == TreesOf(inputs[1..]);
      assert SpecTrees(ts)[0] == SpecTree(ts[0]) && SpecTrees(ts)[1..] == SpecTrees(ts[1..]);
    }
  }

  lemma {:induction false} SpecTreeWellFormed(t: SolType)
    requires Proper(t)
    ensures WellFormed(SpecTree(t))
    decreases t, 1
  {
    ProperParts(t);
    if Base(t).Tup? {
      SpecTreesWellFormed(Base(t).fields);
    }
  }

  lemma {:induction false} SpecTreesWellFormed(ts: seq<SolType>)
    requires AllProper(ts)
    ensures AllWellFormed(SpecTrees(ts))
    decreases ts, 0
  {
    if ts != [] {
      SpecTreeWellFormed(ts[0]);
      SpecTreesWellFormed(ts[1..]);
      assert SpecTrees(ts)[1..] == SpecTrees(ts[1..]);
    }
  }

  lemma {:induction false} TreeWellFormed(input: AbiInput, t: SolType)
    requires Describes(input, t) && Proper(t)
    ensures WellFormed(TreeOf(input))
    decreases t, 1
  {
    PlainText(t);
    if input.Compound? {
      ProperParts(t);
      TreesWellFormed(input.components, Base(t).fields);
      PlainSuffix(input.typ);
    }
  }

  lemma PlainSuffix(typ: string)
    requires Plain(typ)
    ensures TupleSuffix(typ).Some? ==> Plain(TupleSuffix(typ).value)
  {
  }

  lemma {:induction false} TreesWellFormed(inputs: seq<AbiInput>, ts: seq<SolType>)
    requires DescribesAll(inputs, ts) && AllProper(ts)
    ensures AllWellFormed(TreesOf(inputs))
    decreases ts, 0
  {
    if ts != [] {
      TreeWellFormed(inputs[0], ts[0]);
      TreesWellFormed(inputs[1..], ts[1..]);
      assert TreesOf(inputs)[1..] == TreesOf(inputs[1..]);
    }
  }

  /** The code prints the specification's canonical type exactly for the types in
      which no tuple sits under more than one array dimension. */
  lemma CanonicalTypeMeetsSpec(input: AbiInput, t: SolType)
    requires Describes(input, t) && Proper(t)
    ensures CanonicalType(input) == SpecType(t) <==> FlatTupleArrays(t)
  {
    CanonicalIsPrint(input);
    SpecIsPrint(t);
    TreeWellFormed(input, t);
    SpecTreeWellFormed(t);
    PrintInjective(TreeOf(input), SpecTree(t));
    TreeIsSpecTree(input, t);
  }

  /** A function's signature is the specification's, its name and then the types of its
      parameters as of a tuple, exactly when those types are all such. */
  lemma CanonicalSigMeetsSpec(f: AbiFunction, fs: seq<SolType>)
    requires DescribesAll(f.inputs, fs) && AllProper(fs)
    ensures CanonicalSig(f) == f.name + SpecType(Tup(fs)) <==> AllFlat(fs)
  {
    CanonicalArePrints(f.inputs);
    SpecArePrints(fs);
    TreesAreSpecTrees(f.inputs, fs);
    TreesWellFormed(f.inputs, fs);
    SpecTreesWellFormed(fs);
    var code, spec := Tuple(TreesOf(f.inputs), ""), Tuple(SpecTrees(fs), "");
    PrintInjective(code, spec);
    var parameters := "(" + Join(CanonicalTypes(f.inputs)) + ")";
    assert Print(code) == parameters + "" == parameters;
    assert Print(spec) == "(" + Join(SpecTypes(fs)) + ")" + "" == SpecType(Tup(fs));
    assert CanonicalSig(f) == f.name + parameters;
    SameTail(f.name, parameters, SpecType(Tup(fs)));
  }

  lemma SameTail(name: string, a: string, b: string)
    ensures name + a == name + b <==> a == b
  {
    if name + a == name + b {
      assert a == (name + a)[|name|..] == (name + b)[|name|..] == b;
    }
  }

  lemma OneBracket(t: SolType)
    requires t.Arr? && Base(t).Tup? && Proper(t)
    ensures var d := Dimensions(t);
            t.elem.Tup? <==> ']' !in d[..|d| - 1]
  {
    var d, before := Dimensions(t), Dimensions(t.elem);
    TextSplits(t);
    TextSplits(t.elem);
    if t.elem.Tup? {
      assert d == "[" + t.length + "]" && d[..|d| - 1] == "[" + t.length;
    } else {
      assert d[..|d| - 1][|before| - 1] == ']';
    }
  }

  /** Types with one real tree are all flat or all not. */
  lemma {:induction false} FlatBySpecTree(t: SolType, u: SolType)
    requires Proper(t) && Proper(u) && SpecTree(t) == SpecTree(u) && FlatTupleArrays(u)
    ensures FlatTupleArrays(t)
    decreases t, 1
  {
    if Base(t).Tup? {
      TextSplits(t);
      TextSplits(u);
      ProperParts(t);
      ProperParts(u);
      if t.Arr? {
        OneBracket(t);
        OneBracket(u);
      }
      AllFlatBySpecTrees(Base(t).fields, Base(u).fields);
    }
  }

  lemma {:induction false} AllFlatBySpecTrees(ts: seq<SolType>, us: seq<SolType>)
    requires AllProper(ts) && AllProper(us) && SpecTrees(ts) == SpecTrees(us) && AllFlat(us)
    ensures AllFlat(ts)
    decreases ts, 0
  {
    if ts != [] {
      assert SpecTrees(ts)[0] == SpecTree(ts[0]) && SpecTrees(ts)[1..] == SpecTrees(ts[1..]);
      assert SpecTrees(us)[0] == SpecTree(us[0]) && SpecTrees(us)[1..] == SpecTrees(us[1..]);
      FlatBySpecTree(ts[0], us[0]);
      AllFlatBySpecTrees(ts[1..], us[1..]);
    }
  }

  /** A descriptor that the code reads as the tree of a flat type is of a flat type. */
  lemma {:induction false} FlatByTree(input: AbiInput, t: SolType, u: SolType)
    requires Describes(input, t) && Proper(t) && Proper(u) && TreeOf(input) == SpecTree(u) && FlatTupleArrays(u)
    ensures FlatTupleArrays(t)
    decreases t, 1
  {
    SuffixOfText(t);
    TextSplits(t);
    TextSplits(u);
    ProperParts(t);
    ProperParts(u);
    if Base(t).Tup? {
      if t.Arr? && t.elem.Arr? {
        assert TreeOf(input) == Leaf(TypeText(t)) && "tuple" <= TypeText(t);
        NotTupleText(Base(u).name, Dimensions(u));
      } else {
        AllFlatByTrees(input.components, Base(t).fields, Base(u).fields);
      }
    }
  }

  lemma {:induction false} AllFlatByTrees(inputs: seq<AbiInput>, ts: seq<SolType>, us: seq<SolType>)
    requires DescribesAll(inputs, ts) && AllProper(ts) && AllProper(us)
    requires TreesOf(inputs) == SpecTrees(us) && AllFlat(us)
    ensures AllFlat(ts)
    decreases ts, 0
  {
    if ts != [] {
      assert TreesOf(inputs)[0] == TreeOf(inputs[0]) && TreesOf(inputs)[1..] == TreesOf(inputs[1..]);
      assert SpecTrees(us)[0] == SpecTree(us[0]) && SpecTrees(us)[1..] == SpecTrees(us[1..]);
      FlatByTree(inputs[0], ts[0], us[0]);
      AllFlatByTrees(inputs[1..], ts[1..], us[1..]);
    }
  }

  lemma ToldApartFromFlat(f: AbiFunction, g: AbiFunction, fs: seq<SolType>, gs: seq<SolType>)
    requires Plain(f.name) && Plain(g.name) && AllFlat(fs)
    requires DescribesAll(f.inputs, fs) && AllProper(fs) && DescribesAll(g.inputs, gs) && AllProper(gs)
    ensures CanonicalSig(f) == CanonicalSig(g) <==> f.name == g.name && SpecTrees(fs) == SpecTrees(gs)
  {
    TreesAreSpecTrees(f.inputs, fs);
    TreesAreSpecTrees(g.inputs, gs);
    TreesWellFormed(f.inputs, fs);
    TreesWellFormed(g.inputs, gs);
    SignaturesAreUnique(f, g);
    if !AllFlat(gs) {
      if TreesOf(g.inputs) == SpecTrees(fs) {
        AllFlatByTrees(g.inputs, gs, fs);
      }
      if SpecTrees(gs) == SpecTrees(fs) {
        AllFlatBySpecTrees(gs, fs);
      }
    }
  }

  /** Two overloads of a contract, at least one over flat types: the code tells their
      signatures apart exactly when names or real types differ. */
  lemma OverloadsToldApart(f: AbiFunction, g: AbiFunction, fs: seq<SolType>, gs: seq<SolType>)
    requires Plain(f.name) && Plain(g.name) && (AllFlat(fs) || AllFlat(gs))
    requires DescribesAll(f.inputs, fs) && AllProper(fs) && DescribesAll(g.inputs, gs) && AllProper(gs)
    ensures CanonicalSig(f) == CanonicalSig(g) <==> f.name == g.name && SpecTrees(fs) == SpecTrees(gs)
  {
    if AllFlat(fs) {
      ToldApartFromFlat(f, g, fs, gs);
    } else {
      ToldApartFromFlat(g, f, gs, fs);
    }
  }

  /** The type of a two-dimensional array of one-component tuples, and a descriptor. */
  function Nested(a: string): SolType {
    Arr(Arr(Tup([Elem(a)]), ""), "")
  }

  function NestedInput(a: string): AbiInput {
    Compound("", "tuple[][]", [Bare("", a)])
  }

  lemma NestedIsDescribed(a: string)
    requires Proper(Elem(a))
    ensures Describes(NestedInput(a), Nested(a)) && Proper(Nested(a))
  {
    var one := [Elem(a)];
    var row := Arr(Tup(one), "");
    assert one[1..] == [] && [Bare("", a)][1..] == [];
    assert Base(row) == Base(Tup(one)) == Tup(one) && Base(Nested(a)) == Base(row);
    assert AllProper(one) && Proper(Tup(one)) && Proper(row);
    assert Describes(Bare("", a), Elem(a));
    assert TypeText(row) == TypeText(Tup(one)) + "[" + "" + "]" == "tuple[]";
    assert TypeText(Nested(a)) == "tuple[]" + "[" + "" + "]" == "tuple[][]";
  }

  lemma NestedTrees(a: string)
    ensures SpecTree(Nested(a)) == Tuple([Leaf(a)], "[][]")
    ensures TreeOf(NestedInput(a)) == Leaf("tuple[][]") && CanonicalType(NestedInput(a)) == "tuple[][]"
  {
    var one := [Elem(a)];
    var row := Arr(Tup(one), "");
    assert Base(row) == Base(Tup(one)) == Tup(one) && Base(Nested(a)) == Base(row);
    assert Dimensions(row) == "" + "[" + "" + "]" == "[]";
    assert Dimensions(Nested(a)) == "[]" + "[" + "" + "]" == "[][]";
    assert SpecTree(Elem(a)) == Leaf(a + "") && a + "" == a;
    assert one[1..] == [] && SpecTrees(one) == [SpecTree(one[0])] + SpecTrees(one[1..]) == [Leaf(a)];
    assert "tuple[][]"[6..8][0] == ']';
    assert TupleSuffix("tuple[][]").None?;
  }

  /** Otherwise overloads are conflated: two functions of one name over
      two-dimensional arrays of different tuples, so of different real types, share a
      signature. */
  lemma NestedTupleArraysConflate(name: string, a: string, b: string)
    requires a != b && Proper(Elem(a)) && Proper(Elem(b))
    ensures var f, g := AbiFunction(name, [NestedInput(a)]), AbiFunction(name, [NestedInput(b)]);
            && DescribesAll(f.inputs, [Nested(a)]) && DescribesAll(g.inputs, [Nested(b)])
            && SpecTrees([Nested(a)]) != SpecTrees([Nested(b)])
            && CanonicalSig(f) == CanonicalSig(g)
  {
    NestedIsDescribed(a);
    NestedIsDescribed(b);
    NestedTrees(a);
    NestedTrees(b);
    var f, g := [NestedInput(a)], [NestedInput(b)];
    assert f[1..] == [] && g[1..] == [] && [Nested(a)][1..] == [] && [Nested(b)][1..] == [];
    assert SpecTrees([Nested(a)])[0] == SpecTree(Nested(a)) && SpecTrees([Nested(b)])[0] == SpecTree(Nested(b));
    assert Tuple([Leaf(a)], "[][]").parts[0] != Tuple([Leaf(b)], "[][]").parts[0];
    assert CanonicalTypes(f) == ["tuple[][]"] + CanonicalTypes([]) == CanonicalTypes(g);
  }
}

/** The contract facade's lookup tables and its cache of method handles. */
module ContractFacade {
  import opened AbiSignatures

  datatype AbiItem = Function(fn: AbiFunction) | OtherItem

  function Functions(abi: seq<AbiItem>): seq<AbiFunction> {
    if abi == [] then []
    else
      var last := abi[|abi| - 1];
      Functions(abi[..|abi| - 1]) + (if last.Function? then [last.fn] else [])
  }

  function Named(fns: seq<AbiFunction>, name: string): seq<AbiFunction> {
    if fns == [] then []
    else
      var last := fns[|fns| - 1];
      Named(fns[..|fns| - 1], name) + (if last.name == name then [last] else [])
  }

  function ByName(fns: seq<AbiFunction>): map<string, seq<AbiFunction>> {
    if fns == [] then map[]
    else
      var last, before := fns[|fns| - 1], ByName(fns[..|fns| - 1]);
      before[last.name := (if last.name in before then before[last.name] else []) + [last]]
  }

  function BySignature(fns: seq<AbiFunction>): map<string, AbiFunction> {
    if fns == [] then map[]
    else
      var last := fns[|fns| - 1];
      BySignature(fns[..|fns| - 1])[CanonicalSig(last) := last]
  }

  /** The functions of an ABI are its function items, in ABI order. */
  lemma {:induction false} FunctionsInOrder(a: seq<AbiItem>, b: seq<AbiItem>)
    ensures Functions(a + b) == Functions(a) + Functions(b)
  {
    if b == [] {
      assert a + b == a && Functions(a) + [] == Functions(a);
    } else {
      var n := |b| - 1;
      assert (a + b)[..|a| + n] == a + b[..n];
      FunctionsInOrder(a, b[..n]);
    }
  }

  lemma OneItem(fn: AbiFunction, name: string)
    ensures Functions([Function(fn)]) == [fn] && Functions([OtherItem]) == []
    ensures Named([fn], name) == if fn.name == name then [fn] else []
  {
    assert [Function(fn)][..0] == [] && [OtherItem][..0] == [] && [fn][..0] == [];
  }

  /** Those of a name are the ones that have it, in the same order. */
  lemma {:induction false} NamedInOrder(a: seq<AbiFunction>, b: seq<AbiFunction>, name: string)
    ensures Named(a + b, name) == Named(a, name) + Named(b, name)
  {
    if b == [] {
      assert a + b == a && Named(a, name) + [] == Named(a, name);
    } else {
      var n := |b| - 1;
      var mine := if b[n].name == name then [b[n]] else [];
      NamedInOrder(a, b[..n], name);
      assert (a + b)[..|a| + n] == a + b[..n] && (a + b)[|a| + n] == b[n];
      assert (Named(a, name) + Named(b[..n], name)) + mine == Named(a, name) + (Named(b[..n], name) + mine);
    }
  }

  /** The name table lists each name's functions in ABI order, and nothing else. */
  lemma {:induction false} ByNameMeans(fns: seq<AbiFunction>, name: string)
    ensures name in ByName(fns) <==> Named(fns, name) != []
    ensures name in ByName(fns) ==> ByName(fns)[name] == Named(fns, name)
  {
    if fns != [] {
      ByNameMeans(fns[..|fns| - 1], name);
    }
  }

  /** The signature table answers exactly the ABI's signatures, each with the last of
      the functions that have it. */
  lemma {:induction false} BySignatureMeans(fns: seq<AbiFunction>, sig: string)
    ensures sig in BySignature(fns) <==> exists f :: f in fns && CanonicalSig(f) == sig
    ensures sig in BySignature(fns) ==>
              exists i :: 0 <= i < |fns| && LastOfSignature(fns, sig, i, BySignature(fns)[sig])
  {
    if fns != [] {
      var n := |fns| - 1;
      BySignatureMeans(fns[..n], sig);
      assert forall f :: f in fns <==> f in fns[..n] || f == fns[n];
      if CanonicalSig(fns[n]) == sig {
        assert LastOfSignature(fns, sig, n, fns[n]);
      } else if sig in BySignature(fns) {
        var i :| 0 <= i < n && LastOfSignature(fns[..n], sig, i, BySignature(fns[..n])[sig]);
        assert LastOfSignature(fns, sig, i, BySignature(fns)[sig]);
      }
    }
  }

  ghost predicate LastOfSignature(fns: seq<AbiFunction>, sig: string, i: nat, fn: AbiFunction) {
    && i < |fns| && fns[i] == fn && CanonicalSig(fn) == sig
    && forall j :: i < j < |fns| ==> CanonicalSig(fns[j]) != sig
  }

  /** A handle remembers the entry it was made for and whether it got a contract
      object of its own. */
  datatype Handle = Handle(fn: AbiFunction, ownContract: bool)

  class Facade {
    var overloadsByName: map<string, seq<AbiFunction>>
    var fnsBySignature: map<string, AbiFunction>
    var handles: map<string, Handle>
    ghost const functions: seq<AbiFunction>

    ghost predicate Valid()
      reads this
    {
      && overloadsByName == ByName(functions)
      && fnsBySignature == BySignature(functions)
      && (forall sig :: sig in handles ==> CanonicalSig(handles[sig].fn) == sig)
    }

    constructor (abi: seq<AbiItem>)
      ensures Valid() && functions == Functions(abi) && handles == map[]
    {
      functions := Functions(abi);
      var byName: map<string, seq<AbiFunction>>, bySig: map<string, AbiFunction> := map[], map[];
      for i := 0 to |abi|
        invariant byName == ByName(Functions(abi[..i])) && bySig == BySignature(Functions(abi[..i]))
      {
        assert abi[..i + 1][..i] == abi[..i];
        if abi[i].Function? {
          byName, bySig := Register(byName, bySig, Functions(abi[..i]), abi[i].fn);
        } else {
          assert Functions(abi[..i + 1]) == Functions(abi[..i]);
        }
      }
      assert abi[..|abi|] == abi;
      overloadsByName, fnsBySignature, handles := byName, bySig, map[];
    }

    /** Enters one more function into both tables. */
    static method Register(names: map<string, seq<AbiFunction>>, sigs: map<string, AbiFunction>,
                           ghost before: seq<AbiFunction>, fn: AbiFunction)
      returns (byName: map<string, seq<AbiFunction>>, bySig: map<string, AbiFunction>)
      requires names == ByName(before) && sigs == BySignature(before)
      ensures byName == ByName(before + [fn]) && bySig == BySignature(before + [fn])
    {
      assert (before + [fn])[..|before|] == before;
      byName := names;
      bySig := sigs[CanonicalSig(fn) := fn];
      if fn.name !in byName {
        byName := byName[fn.name := []];
      }
      byName := byName[fn.name := byName[fn.name] + [fn]];
    }

    /** A cached or new handle for `fn`: the entry behind it has `fn`'s signature,
        and it has a contract of its own exactly if the name is overloaded. */
    method MethodFor(fn: AbiFunction) returns (h: Handle)
      requires Valid()
      modifies this`handles
      ensures Valid() && CanonicalSig(h.fn) == CanonicalSig(fn)
      ensures handles == old(handles)[CanonicalSig(fn) := h]
      ensures CanonicalSig(fn) in old(handles) ==> h == old(handles)[CanonicalSig(fn)]
      ensures CanonicalSig(fn) !in old(handles) ==> h == Handle(fn, |Named(functions, fn.name)| > 1)
    {
      var sig := CanonicalSig(fn);
      if sig in handles {
        return handles[sig];
      }
      ByNameMeans(functions, fn.name);
      h := Handle(fn, fn.name in overloadsByName && |overloadsByName[fn.name]| > 1);
      handles := handles[sig := h];
    }
  }

  /** Whatever a signature-keyed table answers, its name and its component type
      trees are the ones asked for: overloads are never conflated. */
  lemma TablesNeverConflate(asked: AbiFunction, answered: AbiFunction)
    requires WellFormedFunction(asked) && WellFormedFunction(answered)
    requires CanonicalSig(answered) == CanonicalSig(asked)
    ensures answered.name == asked.name && TreesOf(answered.inputs) == TreesOf(asked.inputs)
  {
    SignaturesAreUnique(asked, answered);
  }
}
