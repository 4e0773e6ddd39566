/** The BigInt-safe JSON serializer: `JSON.stringify` with every BigInt tagged as a
    sentinel string, then one global regular-expression pass over the text. */
module BigIntJson {
  import opened Common
  import opened HexDigits
  import opened Texts

  /** A value as `JSON.stringify` sees it. A number is given by its text. */
  datatype Value =
    | Null
    | Bool(b: bool)
    | Num(text: string)
    | Str(s: string)
    | Big(n: int)
    | Arr(items: seq<Value>)
    | Obj(fields: seq<Field>)

  datatype Field = Field(key: string, value: Value)

  // ---- Decimal integers ----

  function Digits(n: nat): (s: string)
    ensures s != "" && AllDigits(s)
  {
    if n < 10 then ['0' + n as char] else Digits(n / 10) + ['0' + (n % 10) as char]
  }

  /** `BigInt.prototype.toString`. */
  function Dec(n: int): string {
    if n < 0 then "-" + Digits(-n) else Digits(n)
  }

  predicate IsDigit(c: char) {
    '0' <= c <= '9'
  }

  predicate AllDigits(s: string) {
    forall i :: 0 <= i < |s| ==> IsDigit(s[i])
  }

  /** The integer a digit text stands for. */
  function NatOf(s: string): nat
    requires AllDigits(s)
  {
    if s == "" then 0 else 10 * NatOf(s[..|s| - 1]) + (s[|s| - 1] as int - '0' as int)
  }

  function IntOf(s: string): Option<int> {
    if |s| >= 2 && s[0] == '-' && AllDigits(s[1..]) then Some(0 - NatOf(s[1..]) as int)
    else if s != "" && AllDigits(s) then Some(NatOf(s))
    else None
  }

  lemma {:induction false} DigitsExact(n: nat)
    ensures NatOf(Digits(n)) == n
  {
    var s := Digits(n);
    if n >= 10 {
      DigitsExact(n / 10);
      assert s[..|s| - 1] == Digits(n / 10);
    }
  }

  lemma DecExact(n: int)
    ensures IntOf(Dec(n)) == Some(n)
  {
    if n < 0 {
      DigitsExact(-n);
      assert Dec(n)[1..] == Digits(-n);
    } else {
      DigitsExact(n);
      assert IsDigit(Dec(n)[0]);
    }
  }

  /** In decimal digits, without leading zeros. */
  lemma {:induction false} DigitsArePlain(n: nat)
    ensures Digits(n)[0] == '0' <==> n == 0
    ensures n == 0 ==> Digits(n) == "0"
  {
    if n >= 10 {
      DigitsArePlain(n / 10);
    }
  }

  lemma DecIsPlain(n: int)
    ensures n > 0 ==> '1' <= Dec(n)[0] <= '9'
    ensures n < 0 ==> Dec(n)[0] == '-' && '1' <= Dec(n)[1] <= '9'
    ensures Dec(0) == "0"
  {
    DigitsArePlain(if n < 0 then -n else n);
    assert IsDigit(Digits(if n < 0 then -n else n)[0]);
  }

  // ---- JSON.stringify ----

  /** Section 7 of RFC 8259: quotes, backslashes and control characters are escaped. */
  function Esc(c: char): string {
    if c == '\"' then "\\\""
    else if c == '\\' then "\\\\"
    else if c as int == 8 then "\\b"
    else if c == '\t' then "\\t"
    else if c == '\n' then "\\n"
    else if c as int == 12 then "\\f"
    else if c == '\r' then "\\r"
    else if c as int < 32 then "\\u00" + [DigitChar(c as int / 16), DigitChar(c as int % 16)]
    else [c]
  }

  /** Nothing else is escaped, and nothing longer than needed: one character stays,
      seven have a short escape, the other control characters the long one. */
  lemma EscIsShortest(c: char)
    ensures Esc(c) == [c] <==> c != '\"' && c != '\\' && c as int >= 32
    ensures |Esc(c)| == 2 <==> c in {'\"', '\\', '\t', '\n', '\r', 8 as char, 12 as char}
    ensures |Esc(c)| in {1, 2, 6}
    ensures |Esc(c)| == 6 ==> Esc(c)[..4] == "\\u00"
  {
  }

  function EscAll(s: string): string {
    if s == "" then "" else Esc(s[0]) + EscAll(s[1..])
  }

  function Quote(s: string): string {
    "\"" + EscAll(s) + "\""
  }

  /** Three renderings that differ in strings and BigInts only: with BigInts tagged,
      as the replacer leaves them; as wanted; and as the pass turns out to leave
      the tagged text. */
  datatype Mode = Tagged | Wanted | AfterPass

  function QuoteIn(mode: Mode, s: string): string {
    if mode == AfterPass then Rewrite(Quote(s)) else Quote(s)
  }

  function BigIn(mode: Mode, n: int): string {
    if mode == Tagged then PREFIX + Dec(n) + SUFFIX else Dec(n)
  }

  function Serialize(v: Value, mode: Mode): string
    decreases v, 1
  {
    match v
    case Null => "null"
    case Bool(b) => if b then "true" else "false"
    case Num(text) => text
    case Str(s) => QuoteIn(mode, s)
    case Big(n) => BigIn(mode, n)
    case Arr(items) => "[" + SerializeItems(items, mode) + "]"
    case Obj(fields) => "{" + SerializeFields(fields, mode) + "}"
  }

  function SerializeItems(vs: seq<Value>, mode: Mode): string
    decreases vs, 0
  {
    if vs == [] then ""
    else if |vs| == 1 then Serialize(vs[0], mode)
    else Serialize(vs[0], mode) + "," + SerializeItems(vs[1..], mode)
  }

  function SerializeFields(fs: seq<Field>, mode: Mode): string
    decreases fs, 0
  {
    if fs == [] then ""
    else
      var first := FieldText(fs[0], mode);
      if |fs| == 1 then first else first + "," + SerializeFields(fs[1..], mode)
  }

  function FieldText(f: Field, mode: Mode): string
    decreases f, 2
  {
    QuoteIn(mode, f.key) + ":" + Serialize(f.value, mode)
  }

  const PREFIX := "\"XBI_"
  const SUFFIX := "_BIX\""

  // ---- The regular-expression pass ----

  /** Length of the longest `-?\d+` at the start, zero if none. */
  function NumberLength(s: string): (k: nat)
    ensures k <= |s|
    ensures forall i :: 0 <= i < k ==> s[i] == '-' || IsDigit(s[i])
  {
    if s != "" && s[0] == '-' then
      var k := DigitRun(s[1..]);
      assert forall i :: 0 < i < 1 + k ==> s[i] == s[1..][i - 1];
      if k == 0 then 0 else 1 + k
    else DigitRun(s)
  }

  function DigitRun(s: string): (k: nat)
    ensures k <= |s|
    ensures forall i :: 0 <= i < k ==> IsDigit(s[i])
    ensures k < |s| ==> !IsDigit(s[k])
  {
    if s == "" || !IsDigit(s[0]) then 0
    else
      var k := DigitRun(s[1..]);
      assert forall i :: 0 < i < 1 + k ==> s[i] == s[1..][i - 1];
      1 + k
  }

  /** Length of the match at the start of `s`, zero if there is none. */
  function MatchLength(s: string): (m: nat)
    ensures m <= |s|
    ensures m > 0 ==> m >= 11
  {
    if PREFIX <= s then
      var k := NumberLength(s[5..]);
      if k > 0 && SUFFIX <= s[5 + k..] then 5 + k + 5 else 0
    else 0
  }

  /** Every match, left to right, replaced by what it captured. */
  function Rewrite(s: string): string {
    if s == "" then ""
    else
      var m := MatchLength(s);
      if m > 0 then s[5..m - 5] + Rewrite(s[m..]) else [s[0]] + Rewrite(s[1..])
  }

  function JsonStringifyWithBigInts(v: Value): string {
    Rewrite(Serialize(v, Tagged))
  }

  /** The text wanted: BigInts as integer literals. */
  function DirectJson(v: Value): string {
    Serialize(v, Wanted)
  }

  /** Number texts are made of number characters. */
  predicate WellFormed(v: Value)
    decreases v, 1
  {
    match v
    case Num(text) => text != "" && forall i :: 0 <= i < |text| ==> NumberChar(text[i])
    case Arr(items) => AllWellFormed(items)
    case Obj(fields) => FieldsWellFormed(fields)
    case _ => true
  }

  predicate AllWellFormed(vs: seq<Value>)
    decreases vs, 0
  {
    vs == [] || (WellFormed(vs[0]) && AllWellFormed(vs[1..]))
  }

  predicate FieldsWellFormed(fs: seq<Field>)
    decreases fs, 0
  {
    fs == [] || (WellFormed(fs[0].value) && FieldsWellFormed(fs[1..]))
  }

  predicate NumberChar(c: char) {
    IsDigit(c) || c == '-' || c == '+' || c == '.' || c == 'e' || c == 'E'
  }

  // ---- How the pass treats each token ----

  lemma {:induction false} RewritePassesPlain(p: string, rest: string)
    requires '\"' !in p
    ensures Rewrite(p + rest) == p + Rewrite(rest)
  {
    if p == "" {
      assert p + rest == rest;
    } else {
      NoMatchHere(p + rest);
      assert (p + rest)[1..] == p[1..] + rest;
      RewritePassesPlain(p[1..], rest);
      Associate([p[0]], p[1..], Rewrite(rest));
      assert [p[0]] + p[1..] == p;
    }
  }

  lemma NoMatchHere(s: string)
    requires s != "" && s[0] != '\"'
    ensures MatchLength(s) == 0 && Rewrite(s) == [s[0]] + Rewrite(s[1..])
  {
    assert PREFIX[0] == '\"';
  }

  lemma {:induction false} DigitRunOf(d: string, rest: string)
    requires AllDigits(d) && rest != "" && !IsDigit(rest[0])
    ensures DigitRun(d + rest) == |d|
  {
    if d == "" {
      assert d + rest == rest;
    } else {
      assert (d + rest)[1..] == d[1..] + rest;
      assert forall i :: 0 <= i < |d| - 1 ==> d[1..][i] == d[i + 1];
      DigitRunOf(d[1..], rest);
    }
  }

  /** A signed or unsigned digit text. */
  predicate IntegerText(d: string) {
    d != "" && if d[0] == '-' then |d| > 1 && AllDigits(d[1..]) else AllDigits(d)
  }

  lemma NumberLengthOf(d: string, rest: string)
    requires IntegerText(d) && rest != "" && !IsDigit(rest[0])
    ensures NumberLength(d + rest) == |d|
  {
    if d[0] == '-' {
      assert (d + rest)[1..] == d[1..] + rest;
      DigitRunOf(d[1..], rest);
    } else {
      DigitRunOf(d, rest);
    }
  }

  lemma DropFront(a: string, b: string)
    ensures (a + b)[|a|..] == b
  {
  }

  lemma MatchesTag(d: string, rest: string)
    requires IntegerText(d)
    ensures MatchLength(PREFIX + d + SUFFIX + rest) == |d| + 10
    ensures Rewrite(PREFIX + d + SUFFIX + rest) == d + Rewrite(rest)
  {
    var s, tail := PREFIX + d + SUFFIX + rest, SUFFIX + rest;
    assert s == PREFIX + (d + tail);
    DropFront(PREFIX, d + tail);
    NumberLengthOf(d, tail);
    DropFront(d, tail);
    DropFront(PREFIX + d, tail);
    DropFront(PREFIX + d + SUFFIX, rest);
    assert s == (PREFIX + d) + tail;
    assert s[5..5 + |d|] == d;
  }

  lemma DecIsIntegerText(n: int)
    ensures IntegerText(Dec(n)) && '\"' !in Dec(n)
  {
    if n < 0 {
      assert Dec(n)[1..] == Digits(-n);
    } else {
      assert IsDigit(Dec(n)[0]);
    }
  }

  /** A match ends where its only other quote is, so on a text ending in a quote it
      cannot run past that quote unless it starts there. */
  lemma MatchStaysInside(z: string, rest: string)
    requires z != "" && z[|z| - 1] == '\"' && (rest == "" || rest[0] != 'X')
    ensures MatchLength(z + rest) == MatchLength(z)
  {
    if MatchLength(z + rest) > 0 {
      MatchEndsInside(z, rest);
    } else if MatchLength(z) > 0 {
      MatchExtends(z, rest);
    }
  }

  lemma MatchEndsInside(z: string, rest: string)
    requires z != "" && z[|z| - 1] == '\"' && (rest == "" || rest[0] != 'X') && MatchLength(z + rest) > 0
    ensures MatchLength(z) == MatchLength(z + rest)
  {
    var s, m := z + rest, MatchLength(z + rest);
    MatchShape(s);
    var d := s[5..m - 5];
    assert s[..m][1] == (PREFIX + d + SUFFIX)[1] == 'X';
    assert s[1] == 'X' && s[|z| - 1] == '\"';
    assert |z| > 1 && m <= |z|;
    assert z[..m] == s[..m];
    assert z == PREFIX + d + SUFFIX + z[m..];
    MatchesTag(d, z[m..]);
  }

  lemma MatchExtends(z: string, rest: string)
    requires MatchLength(z) > 0
    ensures MatchLength(z + rest) == MatchLength(z)
  {
    var k := MatchLength(z);
    MatchShape(z);
    var d := z[5..k - 5];
    assert z == z[..k] + z[k..];
    assert z + rest == PREFIX + d + SUFFIX + (z[k..] + rest);
    MatchesTag(d, z[k..] + rest);
  }

  /** What a match looks like. */
  lemma MatchShape(s: string)
    requires MatchLength(s) > 0
    ensures var m := MatchLength(s);
            && IntegerText(s[5..m - 5]) && s[..m] == PREFIX + s[5..m - 5] + SUFFIX
            && s[0] == '\"' && s[m - 1] == '\"' && s[m - 2] == 'X'
            && forall i :: 0 < i < m - 1 ==> s[i] != '\"' && s[i] != '\\'
  {
    MatchParts(s);
    var m := MatchLength(s);
    var d := s[5..m - 5];
    assert s[..m] == s[..5] + d + s[m - 5..m];
    IntegerTextIsPlain(d);
    assert PREFIX[1] == 'X' && PREFIX[2] == 'B' && PREFIX[3] == 'I' && PREFIX[4] == '_';
    assert SUFFIX[0] == '_' && SUFFIX[1] == 'B' && SUFFIX[2] == 'I' && SUFFIX[3] == 'X';
    assert s[0] == s[..5][0] && s[m - 1] == s[m - 5..m][4] && s[m - 2] == s[m - 5..m][3];
    forall i | 0 < i < m - 1
      ensures s[i] != '\"' && s[i] != '\\'
    {
      if i < 5 {
        assert s[i] == s[..5][i];
      } else if i < m - 5 {
        assert s[i] == d[i - 5];
      } else {
        assert s[i] == s[m - 5..m][i - (m - 5)];
      }
    }
  }

  lemma MatchParts(s: string)
    requires MatchLength(s) > 0
    ensures var m := MatchLength(s);
            s[..5] == PREFIX && IntegerText(s[5..m - 5]) && s[m - 5..m] == SUFFIX
  {
    var t := s[5..];
    var k := NumberLength(t);
    IntegerTextAt(t);
    assert t[..k] == s[5..5 + k];
    assert t[k..][..5] == s[5 + k..10 + k];
  }

  lemma IntegerTextIsPlain(d: string)
    requires IntegerText(d)
    ensures forall i :: 0 <= i < |d| ==> d[i] == '-' || IsDigit(d[i])
  {
    if d[0] == '-' {
      assert forall i :: 1 <= i < |d| ==> d[i] == d[1..][i - 1];
    }
  }

  lemma IntegerTextAt(t: string)
    requires NumberLength(t) > 0
    ensures IntegerText(t[..NumberLength(t)])
  {
    var k := NumberLength(t);
    if t[0] == '-' {
      assert t[..k][1..] == t[1..][..k - 1];
    }
  }

  /** How far one step of the pass goes, and what it leaves. */
  function StepLength(s: string): (n: nat)
    requires s != ""
    ensures 0 < n <= |s|
  {
    if MatchLength(s) > 0 then MatchLength(s) else 1
  }

  function StepText(s: string): string
    requires s != ""
  {
    if MatchLength(s) > 0 then s[5..MatchLength(s) - 5] else [s[0]]
  }

  lemma RewriteSteps(s: string)
    requires s != ""
    ensures Rewrite(s) == StepText(s) + Rewrite(s[StepLength(s)..])
  {
  }

  /** One step of the pass over `z` is the same step with `rest` behind it. */
  lemma StepStays(z: string, rest: string)
    requires z != "" && z[|z| - 1] == '\"' && (rest == "" || rest[0] != 'X')
    ensures StepLength(z + rest) == StepLength(z) && StepText(z + rest) == StepText(z)
    ensures (z + rest)[StepLength(z)..] == z[StepLength(z)..] + rest
  {
    MatchStaysInside(z, rest);
    var n := StepLength(z);
    SliceInside(z, rest, n, |z|);
    if MatchLength(z) > 0 {
      SliceInside(z, rest, 5, n - 5);
    }
  }

  lemma SliceInside(a: string, b: string, i: nat, j: nat)
    requires i <= j <= |a|
    ensures (a + b)[i..j] == a[i..j] && (a + b)[i..] == a[i..] + b
  {
  }

  /** The pass treats a text ending in a quote on its own, unless an X follows. */
  lemma {:induction false} RewriteSplits(z: string, rest: string)
    requires z != "" && z[|z| - 1] == '\"' && (rest == "" || rest[0] != 'X')
    ensures Rewrite(z + rest) == Rewrite(z) + Rewrite(rest)
    decreases |z|
  {
    var after := z[StepLength(z)..];
    RewriteSteps(z);
    RewriteSteps(z + rest);
    StepStays(z, rest);
    if after != "" {
      RewriteSplits(after, rest);
    } else {
      assert after + rest == rest && Rewrite(after) + Rewrite(rest) == Rewrite(rest);
    }
    Associate(StepText(z), Rewrite(after), Rewrite(rest));
  }

  /** A text after which a value may stand: not an X. */
  predicate Follow(rest: string) {
    rest == "" || rest[0] != 'X'
  }

  /** With `rest` behind it, the pass turns `text` into `out` and goes on with `rest`. */
  predicate Passes(text: string, out: string, rest: string) {
    Rewrite(text + rest) == out + Rewrite(rest)
  }

  lemma PassesInTurn(t1: string, o1: string, t2: string, o2: string, rest: string)
    requires Passes(t1, o1, t2 + rest) && Passes(t2, o2, rest)
    ensures Passes(t1 + t2, o1 + o2, rest)
  {
    Associate(t1, t2, rest);
    Associate(o1, o2, Rewrite(rest));
  }

  lemma PassesBracketed(open: string, text: string, out: string, close: string, rest: string)
    requires '\"' !in open && '\"' !in close && Passes(text, out, close + rest)
    ensures Passes(open + text + close, open + out + close, rest)
  {
    RewritePassesPlain(close, rest);
    PassesInTurn(text, out, close, close, rest);
    RewritePassesPlain(open, text + close + rest);
    Associate(open, text, close);
    Associate(open, out, close);
    PassesInTurn(open, open, text + close, out + close, rest);
  }

  /** The pass works token by token: BigInts become literals, and each string is
      what the pass makes of it alone. No hypothesis on the strings. */
  lemma {:induction false} RewriteTokenwise(v: Value, rest: string)
    requires WellFormed(v) && Follow(rest)
    ensures Passes(Serialize(v, Tagged), Serialize(v, AfterPass), rest)
    decreases v, 1
  {
    match v
    case Null => RewritePassesPlain("null", rest);
    case Bool(b) => RewritePassesPlain(if b then "true" else "false", rest);
    case Num(text) => RewritePassesPlain(text, rest);
    case Str(s) => RewriteSplits(Quote(s), rest);
    case Big(n) =>
      DecIsIntegerText(n);
      MatchesTag(Dec(n), rest);
    case Arr(items) =>
      RewriteItems(items, "]" + rest);
      PassesBracketed("[", SerializeItems(items, Tagged), SerializeItems(items, AfterPass), "]", rest);
    case Obj(fields) =>
      RewriteFields(fields, "}" + rest);
      PassesBracketed("{", SerializeFields(fields, Tagged), SerializeFields(fields, AfterPass), "}", rest);
  }

  lemma {:induction false} RewriteItems(vs: seq<Value>, rest: string)
    requires AllWellFormed(vs) && Follow(rest)
    ensures Passes(SerializeItems(vs, Tagged), SerializeItems(vs, AfterPass), rest)
    decreases vs, 0
  {
    if vs == [] {
      assert "" + rest == rest && "" + Rewrite(rest) == Rewrite(rest);
    } else if |vs| == 1 {
      RewriteTokenwise(vs[0], rest);
    } else {
      RewriteItems(vs[1..], rest);
      CommaPasses(SerializeItems(vs[1..], Tagged), SerializeItems(vs[1..], AfterPass), rest);
      var tail := "," + SerializeItems(vs[1..], Tagged);
      RewriteTokenwise(vs[0], tail + rest);
      PassesInTurn(Serialize(vs[0], Tagged), Serialize(vs[0], AfterPass),
                   tail, "," + SerializeItems(vs[1..], AfterPass), rest);
      Associate(Serialize(vs[0], Tagged), ",", SerializeItems(vs[1..], Tagged));
      Associate(Serialize(vs[0], AfterPass), ",", SerializeItems(vs[1..], AfterPass));
    }
  }

  lemma CommaPasses(text: string, out: string, rest: string)
    requires Passes(text, out, rest)
    ensures Passes("," + text, "," + out, rest)
  {
    RewritePassesPlain(",", text + rest);
    PassesInTurn(",", ",", text, out, rest);
  }

  lemma {:induction false} RewriteFields(fs: seq<Field>, rest: string)
    requires FieldsWellFormed(fs) && Follow(rest)
    ensures Passes(SerializeFields(fs, Tagged), SerializeFields(fs, AfterPass), rest)
    decreases fs, 0
  {
    if fs == [] {
      assert "" + rest == rest && "" + Rewrite(rest) == Rewrite(rest);
    } else if |fs| == 1 {
      RewriteTokenwise(fs[0].value, rest);
      FieldPasses(fs[0], rest);
    } else {
      RewriteFields(fs[1..], rest);
      CommaPasses(SerializeFields(fs[1..], Tagged), SerializeFields(fs[1..], AfterPass), rest);
      var tail := "," + SerializeFields(fs[1..], Tagged);
      RewriteTokenwise(fs[0].value, tail + rest);
      FieldPasses(fs[0], tail + rest);
      var text, out := FieldText(fs[0], Tagged), FieldText(fs[0], AfterPass);
      PassesInTurn(text, out, tail, "," + SerializeFields(fs[1..], AfterPass), rest);
      Associate(text, ",", SerializeFields(fs[1..], Tagged));
      Associate(out, ",", SerializeFields(fs[1..], AfterPass));
    }
  }

  lemma FieldPasses(f: Field, rest: string)
    requires Follow(rest) && Passes(Serialize(f.value, Tagged), Serialize(f.value, AfterPass), rest)
    ensures Passes(FieldText(f, Tagged), FieldText(f, AfterPass), rest)
  {
    var text, out := Serialize(f.value, Tagged), Serialize(f.value, AfterPass);
    RewritePassesPlain(":", text + rest);
    PassesInTurn(":", ":", text, out, rest);
    RewriteSplits(Quote(f.key), ":" + text + rest);
    PassesInTurn(Quote(f.key), Rewrite(Quote(f.key)), ":" + text, ":" + out, rest);
    Associate(Quote(f.key), ":", text);
    Associate(Rewrite(Quote(f.key)), ":", out);
  }

  // ---- When that is the text wanted ----

  /** The pass never lengthens a text, and shortens it whenever it changes it. */
  lemma {:induction false} RewriteShortens(s: string)
    ensures |Rewrite(s)| <= |s|
    ensures |Rewrite(s)| == |s| ==> Rewrite(s) == s
    decreases |s|
  {
    if s != "" {
      var m := MatchLength(s);
      RewriteShortens(s[if m > 0 then m else 1..]);
    }
  }

  /** The pass leaves the quoted text of every string and key alone. */
  predicate Clean(s: string) {
    Rewrite(Quote(s)) == Quote(s)
  }

  predicate AllClean(v: Value)
    decreases v, 1
  {
    match v
    case Str(s) => Clean(s)
    case Arr(items) => ItemsClean(items)
    case Obj(fields) => FieldsClean(fields)
    case _ => true
  }

  predicate ItemsClean(vs: seq<Value>)
    decreases vs, 0
  {
    vs == [] || (AllClean(vs[0]) && ItemsClean(vs[1..]))
  }

  predicate FieldsClean(fs: seq<Field>)
    decreases fs, 0
  {
    fs == [] || (Clean(fs[0].key) && AllClean(fs[0].value) && FieldsClean(fs[1..]))
  }

  lemma {:induction false} SerializeShortens(v: Value)
    ensures |Serialize(v, AfterPass)| <= |Serialize(v, Wanted)|
    ensures |Serialize(v, AfterPass)| == |Serialize(v, Wanted)| <==> AllClean(v)
    ensures AllClean(v) ==> Serialize(v, AfterPass) == Serialize(v, Wanted)
    decreases v, 1
  {
    match v
    case Str(s) => RewriteShortens(Quote(s));
    case Arr(items) => ItemsShorten(items);
    case Obj(fields) => FieldsShorten(fields);
    case _ =>
  }

  lemma {:induction false} ItemsShorten(vs: seq<Value>)
    ensures |SerializeItems(vs, AfterPass)| <= |SerializeItems(vs, Wanted)|
    ensures |SerializeItems(vs, AfterPass)| == |SerializeItems(vs, Wanted)| <==> ItemsClean(vs)
    ensures ItemsClean(vs) ==> SerializeItems(vs, AfterPass) == SerializeItems(vs, Wanted)
    decreases vs, 0
  {
    if vs != [] {
      SerializeShortens(vs[0]);
      ItemsShorten(vs[1..]);
    }
  }

  lemma {:induction false} FieldsShorten(fs: seq<Field>)
    ensures |SerializeFields(fs, AfterPass)| <= |SerializeFields(fs, Wanted)|
    ensures |SerializeFields(fs, AfterPass)| == |SerializeFields(fs, Wanted)| <==> FieldsClean(fs)
    ensures FieldsClean(fs) ==> SerializeFields(fs, AfterPass) == SerializeFields(fs, Wanted)
    decreases fs, 0
  {
    if fs != [] {
      RewriteShortens(Quote(fs[0].key));
      SerializeShortens(fs[0].value);
      FieldsShorten(fs[1..]);
    }
  }

  /** The serializer yields the wanted text exactly when every string and key is
      clean. */
  lemma StringifyExact(v: Value)
    requires WellFormed(v)
    ensures JsonStringifyWithBigInts(v) == DirectJson(v) <==> AllClean(v)
  {
    RewriteTokenwise(v, "");
    var raw := Serialize(v, Tagged);
    assert raw + "" == raw;
    assert Serialize(v, AfterPass) + "" == Serialize(v, AfterPass);
    SerializeShortens(v);
  }

  // ---- Clean strings, in terms of the string itself ----

  /** `XBI_`, an integer, `_BIX`, and nothing else. */
  predicate IsTag(t: string) {
    |t| >= 8 && t[..4] == "XBI_" && t[|t| - 4..] == "_BIX" && IntegerText(t[4..|t| - 4])
  }

  /** The string is a tag, or ends in a quote character and a tag. */
  predicate Clashes(s: string) {
    exists i :: 0 <= i <= |s| && (i == 0 || s[i - 1] == '\"') && IsTag(s[i..])
  }

  lemma {:induction false} UnchangedIffNoMatch(z: string)
    ensures Rewrite(z) == z <==> forall i :: 0 <= i < |z| ==> MatchLength(z[i..]) == 0
  {
    if z != "" {
      assert z[0..] == z;
      if MatchLength(z) > 0 {
        RewriteShortens(z[MatchLength(z)..]);
      } else {
        UnchangedIffNoMatch(z[1..]);
        assert forall i :: 0 < i < |z| ==> z[i..] == z[1..][i - 1..];
        assert forall i :: 0 <= i < |z| - 1 ==> z[1..][i..] == z[i + 1..];
      }
    }
  }

  /** In an escaped text every quote follows a backslash. */
  lemma {:induction false} QuotesEscaped(s: string, p: nat)
    requires p < |EscAll(s)| && EscAll(s)[p] == '\"'
    ensures p >= 1 && EscAll(s)[p - 1] == '\\'
  {
    var e := Esc(s[0]);
    if p >= |e| {
      assert EscAll(s)[p] == EscAll(s[1..])[p - |e|];
      QuotesEscaped(s[1..], p - |e|);
    }
  }

  /** A string whose escaped text has no backslash is its own escaped text. */
  lemma {:induction false} EscapelessIsPlain(s: string)
    requires '\\' !in EscAll(s)
    ensures EscAll(s) == s
  {
    if s != "" {
      var e := Esc(s[0]);
      assert e[0] == EscAll(s)[0];
      assert forall i :: 0 <= i < |EscAll(s[1..])| ==> EscAll(s[1..])[i] == EscAll(s)[|e| + i];
      EscapelessIsPlain(s[1..]);
    }
  }

  lemma {:induction false} EscConcat(a: string, b: string)
    ensures EscAll(a + b) == EscAll(a) + EscAll(b)
  {
    if a == "" {
      assert a + b == b;
    } else {
      assert (a + b)[1..] == a[1..] + b;
      EscConcat(a[1..], b);
    }
  }

  /** An escaped quote followed by an escapeless tail comes from a quote followed by
      that very tail. */
  lemma {:induction false} QuotedTail(s: string, a: string, t: string) returns (b: string)
    requires EscAll(s) == a + ("\"" + t) && '\\' !in t && '\"' !in t
    ensures s == b + ("\"" + t)
  {
    var e := Esc(s[0]);
    assert EscAll(s) == e + EscAll(s[1..]);
    if |e| <= |a| {
      TailAfter(e, EscAll(s[1..]), a, "\"" + t);
      var c := QuotedTail(s[1..], a[|e|..], t);
      b := [s[0]] + c;
      assert s == [s[0]] + s[1..];
      Associate([s[0]], c, "\"" + t);
    } else {
      QuoteInside(s[0], EscAll(s[1..]), a, t);
      EscapelessIsPlain(s[1..]);
      b := "";
      assert s == [s[0]] + s[1..] == "" + ("\"" + t);
    }
  }

  lemma TailAfter(e: string, f: string, a: string, t: string)
    requires e + f == a + t && |e| <= |a|
    ensures f == a[|e|..] + t
  {
    assert f == (e + f)[|e|..];
  }

  /** A quote within the escaped text of one character is that of a quote. */
  lemma QuoteInside(c: char, f: string, a: string, t: string)
    requires Esc(c) + f == a + ("\"" + t) && |a| < |Esc(c)|
    ensures c == '\"' && f == t
  {
    var whole := a + ("\"" + t);
    assert Esc(c)[|a|] == whole[|a|] == '\"';
    assert f == (Esc(c) + f)[2..] == whole[2..];
  }

  lemma ClashMakesMatch(s: string, i: nat) returns (p: nat)
    requires i <= |s| && (i == 0 || s[i - 1] == '\"') && IsTag(s[i..])
    ensures p < |Quote(s)| && MatchLength(Quote(s)[p..]) > 0
  {
    TagIsPlain(s[i..]);
    TagMatches(s[i..]);
    if i == 0 {
      p := 0;
      assert s[0..] == s && Quote(s)[0..] == Quote(s);
    } else {
      p := |EscAll(s[..i - 1])| + 2;
      SplitAtQuote(s, i);
      QuotedTag(s[..i - 1], s[i..]);
    }
  }

  lemma SplitAtQuote(s: string, i: nat)
    requires 0 < i <= |s| && s[i - 1] == '\"'
    ensures s == s[..i - 1] + "\"" + s[i..]
  {
  }

  lemma QuotedTag(b: string, t: string)
    requires EscAll(t) == t
    ensures |Quote(b + "\"" + t)| > |EscAll(b)| + 2
    ensures Quote(b + "\"" + t)[|EscAll(b)| + 2..] == "\"" + t + "\""
  {
    EscConcat(b + "\"", t);
    EscConcat(b, "\"");
    EscapedQuote();
    Regroup("\"", EscAll(b), "\\", t);
    DropFront("\"" + EscAll(b) + "\\", "\"" + t + "\"");
  }

  lemma EscapedQuote()
    ensures EscAll("\"") == "\\" + "\""
  {
    assert EscAll("\"") == Esc('\"') + EscAll("\""[1..]);
  }

  lemma Regroup(q: string, e: string, backslash: string, t: string)
    ensures q + ((e + (backslash + q)) + t) + q == (q + e + backslash) + (q + t + q)
  {
  }

  lemma TagMatches(t: string)
    requires IsTag(t)
    ensures MatchLength("\"" + t + "\"") > 0
  {
    TagText(t);
    var d := t[4..|t| - 4];
    MatchesTag(d, "");
    assert PREFIX + d + SUFFIX + "" == PREFIX + d + SUFFIX;
  }

  lemma TagText(t: string)
    requires IsTag(t)
    ensures t == "XBI_" + t[4..|t| - 4] + "_BIX"
    ensures "\"" + t + "\"" == PREFIX + t[4..|t| - 4] + SUFFIX
  {
    assert t == t[..4] + t[4..|t| - 4] + t[|t| - 4..];
  }

  lemma TagIsPlain(t: string)
    requires IsTag(t)
    ensures EscAll(t) == t && '\"' !in t && '\\' !in t
  {
    var d := t[4..|t| - 4];
    assert t == "XBI_" + d + "_BIX";
    IntegerTextIsPlain(d);
    assert forall i :: 0 <= i < |t| ==> t[i] == ("XBI_" + d + "_BIX")[i];
    PlainEscapes(t);
  }

  lemma {:induction false} PlainEscapes(t: string)
    requires forall i :: 0 <= i < |t| ==> t[i] != '\"' && t[i] != '\\' && t[i] as int >= 32
    ensures EscAll(t) == t
  {
    if t != "" {
      PlainEscapes(t[1..]);
    }
  }

  /** A match inside a quoted text ends at its closing quote. */
  lemma MatchReachesEnd(s: string, p: nat)
    requires p < |Quote(s)| && MatchLength(Quote(s)[p..]) > 0
    ensures p + MatchLength(Quote(s)[p..]) == |Quote(s)|
  {
    var j := MatchEdge(Quote(s), p);
    if j < |Quote(s)| - 1 {
      InnerQuotesEscaped(s, j);
    }
  }

  /** The last two characters of a match at `p`. */
  lemma MatchEdge(z: string, p: nat) returns (j: nat)
    requires p < |z| && MatchLength(z[p..]) > 0
    ensures 0 < j == p + MatchLength(z[p..]) - 1 < |z| && z[j] == '\"' && z[j - 1] == 'X'
  {
    MatchShape(z[p..]);
    j := p + MatchLength(z[p..]) - 1;
  }

  lemma InnerQuotesEscaped(s: string, j: nat)
    requires 0 < j < |Quote(s)| - 1 && Quote(s)[j] == '\"'
    ensures Quote(s)[j - 1] == '\\'
  {
    QuotesEscaped(s, j - 1);
  }

  lemma MatchMakesClash(s: string, p: nat)
    requires p < |Quote(s)| && MatchLength(Quote(s)[p..]) > 0
    ensures Clashes(s)
  {
    MatchReachesEnd(s, p);
    var t := MatchedTag(Quote(s)[p..]);
    if p == 0 {
      TagIsPlain(t);
      WholeTag(s, t);
      assert s[0..] == t;
    } else {
      assert Quote(s) == Quote(s)[..p] + Quote(s)[p..];
      TailClashes(s, Quote(s)[..p], t);
    }
  }

  lemma TailClashes(s: string, x: string, t: string)
    requires x != "" && IsTag(t) && Quote(s) == x + ("\"" + t + "\"")
    ensures Clashes(s)
  {
    TagIsPlain(t);
    Peel(EscAll(s), x, t);
    var b := QuotedTail(s, x[1..], t);
    TailOf(s, b, t);
    assert IsTag(s[|b| + 1..]);
  }

  lemma WholeTag(s: string, t: string)
    requires '\\' !in t && Quote(s)[0..] == "\"" + t + "\""
    ensures s == t
  {
    assert EscAll(s) == Quote(s)[0..][1..|Quote(s)| - 1];
    assert t == ("\"" + t + "\"")[1..|t| + 1];
    EscapelessIsPlain(s);
  }

  lemma TailOf(s: string, b: string, t: string)
    requires s == b + ("\"" + t)
    ensures |b| < |s| && s[|b|] == '\"' && s[|b| + 1..] == t
  {
  }

  lemma Peel(e: string, x: string, t: string)
    requires x != "" && "\"" + e + "\"" == x + ("\"" + t + "\"")
    ensures e == x[1..] + ("\"" + t)
  {
    var z := "\"" + e + "\"";
    assert e == z[1..|z| - 1];
  }

  lemma MatchedTag(u: string) returns (t: string)
    requires MatchLength(u) == |u| > 0
    ensures IsTag(t) && u == "\"" + t + "\""
  {
    MatchShape(u);
    var d := u[5..|u| - 5];
    assert u[..|u|] == u;
    t := "XBI_" + d + "_BIX";
    assert t[4..|t| - 4] == d;
  }

  /** A string or key is changed by the pass exactly when it is a tag, or ends in a
      quote character and a tag. */
  lemma CleanExactly(s: string)
    ensures Clean(s) <==> !Clashes(s)
  {
    UnchangedIffNoMatch(Quote(s));
    if Clashes(s) {
      var i :| 0 <= i <= |s| && (i == 0 || s[i - 1] == '\"') && IsTag(s[i..]);
      var p := ClashMakesMatch(s, i);
    }
    if !Clean(s) {
      var p :| 0 <= p < |Quote(s)| && MatchLength(Quote(s)[p..]) > 0;
      MatchMakesClash(s, p);
    }
  }

  /** In particular a string without the sentinel prefix is clean. */
  lemma NoPrefixIsClean(s: string)
    requires forall i :: 0 <= i <= |s| ==> !("XBI_" <= s[i..])
    ensures Clean(s)
  {
    CleanExactly(s);
    assert forall t :: IsTag(t) ==> "XBI_" <= t;
  }
}
