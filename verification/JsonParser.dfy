/** A JSON parser (sections 2 to 7 of RFC 8259, without insignificant whitespace)
    as the reader of what the serializer writes. */
module JsonParser {
  import opened Common
  import opened HexDigits
  import opened BigIntJson
  import opened Texts

  /** What JSON text denotes; a number stays its text. */
  datatype Json =
    | JNull
    | JBool(b: bool)
    | JNum(text: string)
    | JStr(s: string)
    | JArr(items: seq<Json>)
    | JObj(fields: seq<JField>)

  datatype JField = JField(key: string, value: Json)

  /** A value with its BigInts as number texts. */
  function Erase(v: Value): Json
    decreases v, 1
  {
    match v
    case Null => JNull
    case Bool(b) => JBool(b)
    case Num(text) => JNum(text)
    case Str(s) => JStr(s)
    case Big(n) => JNum(Dec(n))
    case Arr(items) => JArr(EraseItems(items))
    case Obj(fields) => JObj(EraseFields(fields))
  }

  function EraseItems(vs: seq<Value>): seq<Json>
    decreases vs, 0
  {
    if vs == [] then [] else [Erase(vs[0])] + EraseItems(vs[1..])
  }

  function EraseFields(fs: seq<Field>): seq<JField>
    decreases fs, 0
  {
    if fs == [] then [] else [JField(fs[0].key, Erase(fs[0].value))] + EraseFields(fs[1..])
  }

  /** The character after a backslash, with its `u` code if it has one. */
  function Unescape(s: string): (r: Option<(char, string)>)
    ensures r.Some? ==> |r.value.1| < |s|
  {
    if s == "" then None
    else if s[0] == '\"' || s[0] == '\\' || s[0] == '/' then Some((s[0], s[1..]))
    else if s[0] == 'b' then Some((8 as char, s[1..]))
    else if s[0] == 't' then Some(('\t', s[1..]))
    else if s[0] == 'n' then Some(('\n', s[1..]))
    else if s[0] == 'f' then Some((12 as char, s[1..]))
    else if s[0] == 'r' then Some(('\r', s[1..]))
    else if s[0] == 'u' && |s| >= 5 then
      var (a, b, c, d) := (HexDigit(s[1]), HexDigit(s[2]), HexDigit(s[3]), HexDigit(s[4]));
      if a.None? || b.None? || c.None? || d.None? then None
      else
        var code := 4096 * a.value + 256 * b.value + 16 * c.value + d.value;
        if code < 0xD800 then Some((code as char, s[5..])) else None
    else None
  }

  /** The characters of a string up to its closing quote. */
  function ParseChars(s: string): (r: Option<(string, string)>)
    ensures r.Some? ==> |r.value.1| < |s|
    decreases |s|
  {
    if s == "" then None
    else if s[0] == '\"' then Some(("", s[1..]))
    else if s[0] == '\\' then
      var u := Unescape(s[1..]);
      if u.None? then None
      else
        var more := ParseChars(u.value.1);
        if more.None? then None else Some(([u.value.0] + more.value.0, more.value.1))
    else
      var more := ParseChars(s[1..]);
      if more.None? then None else Some(([s[0]] + more.value.0, more.value.1))
  }

  function NumberRun(s: string): (k: nat)
    ensures k <= |s|
  {
    if s == "" || !NumberChar(s[0]) then 0 else 1 + NumberRun(s[1..])
  }

  function ParseValue(s: string): (r: Option<(Json, string)>)
    ensures r.Some? ==> |r.value.1| < |s|
    decreases |s|, 0
  {
    if s == "" then None
    else if s[0] == '\"' then
      var chars := ParseChars(s[1..]);
      if chars.None? then None else Some((JStr(chars.value.0), chars.value.1))
    else if s[0] == '[' then
      var items := ParseElements(s[1..]);
      if items.None? then None else Some((JArr(items.value.0), items.value.1))
    else if s[0] == '{' then
      var fields := ParseMembers(s[1..]);
      if fields.None? then None else Some((JObj(fields.value.0), fields.value.1))
    else if s[0] == 'n' then if "null" <= s then Some((JNull, s[4..])) else None
    else if s[0] == 't' then if "true" <= s then Some((JBool(true), s[4..])) else None
    else if s[0] == 'f' then if "false" <= s then Some((JBool(false), s[5..])) else None
    else
      var k := NumberRun(s);
      if k == 0 then None else Some((JNum(s[..k]), s[k..]))
  }

  function ParseElements(s: string): (r: Option<(seq<Json>, string)>)
    ensures r.Some? ==> |r.value.1| < |s|
    decreases |s|, 2
  {
    if s != "" && s[0] == ']' then Some(([], s[1..])) else ParseItems(s)
  }

  function ParseMembers(s: string): (r: Option<(seq<JField>, string)>)
    ensures r.Some? ==> |r.value.1| < |s|
    decreases |s|, 2
  {
    if s != "" && s[0] == '}' then Some(([], s[1..])) else ParseFields(s)
  }

  /** At least one item, and the closing bracket. */
  function ParseItems(s: string): (r: Option<(seq<Json>, string)>)
    ensures r.Some? ==> |r.value.1| < |s|
    decreases |s|, 1
  {
    var first := ParseValue(s);
    if first.None? || first.value.1 == "" then None
    else
      var (v, rest) := first.value;
      if rest[0] == ']' then Some(([v], rest[1..]))
      else if rest[0] != ',' then None
      else
        var more := ParseItems(rest[1..]);
        if more.None? then None else Some(([v] + more.value.0, more.value.1))
  }

  /** At least one member, and the closing brace. */
  function ParseFields(s: string): (r: Option<(seq<JField>, string)>)
    ensures r.Some? ==> |r.value.1| < |s|
    decreases |s|, 1
  {
    if s == "" || s[0] != '\"' then None
    else
      var key := ParseChars(s[1..]);
      if key.None? || key.value.1 == "" || key.value.1[0] != ':' then None
      else
        var first := ParseValue(key.value.1[1..]);
        if first.None? || first.value.1 == "" then None
        else
          var (field, rest) := (JField(key.value.0, first.value.0), first.value.1);
          if rest[0] == '}' then Some(([field], rest[1..]))
          else if rest[0] != ',' then None
          else
            var more := ParseFields(rest[1..]);
            if more.None? then None else Some(([field] + more.value.0, more.value.1))
  }

  function ParseJson(s: string): Option<Json> {
    var r := ParseValue(s);
    if r.Some? && r.value.1 == "" then Some(r.value.0) else None
  }

  // ---- The parser reads back what the serializer wants written ----

  /** What may follow a value. */
  predicate Ends(rest: string) {
    rest == "" || rest[0] == ',' || rest[0] == ']' || rest[0] == '}'
  }

  /** The escape of a character is the character, or a backslash and what `Unescape`
      reads back. */
  lemma EscapeReadsBack(c: char, rest: string)
    ensures |Esc(c)| == 1 ==> Esc(c) == [c] && c != '\"' && c != '\\'
    ensures |Esc(c)| != 1 ==> Esc(c)[0] == '\\' && Unescape(Esc(c)[1..] + rest) == Some((c, rest))
  {
    var e := Esc(c);
    var s := e[1..] + rest;
    if |e| == 2 {
      assert s[0] == e[1] && s[1..] == rest;
    } else if |e| > 2 {
      ControlReadsBack(c, rest);
    }
  }

  lemma ControlReadsBack(c: char, rest: string)
    requires |Esc(c)| > 2
    ensures Unescape(Esc(c)[1..] + rest) == Some((c, rest))
  {
    var n := c as int;
    var hi, lo := DigitChar(n / 16), DigitChar(n % 16);
    var s := Esc(c)[1..] + rest;
    assert Esc(c)[1..] == ['u', '0', '0', hi, lo];
    assert s[0] == 'u' && s[1] == '0' && s[2] == '0' && s[3] == hi && s[4] == lo && s[5..] == rest;
    assert HexDigit('0') == Some(0);
  }

  lemma ParseEscaped(c: char, rest: string)
    requires ParseChars(rest).Some?
    ensures ParseChars(Esc(c) + rest) == Some(([c] + ParseChars(rest).value.0, ParseChars(rest).value.1))
  {
    EscapeReadsBack(c, rest);
    var e := Esc(c);
    assert (e + rest)[0] == e[0];
    assert (e + rest)[1..] == e[1..] + rest;
    if |e| == 1 {
      assert e[1..] + rest == rest;
    }
  }

  lemma {:induction false} ParseQuoted(s: string, rest: string)
    ensures ParseChars(EscAll(s) + "\"" + rest) == Some((s, rest))
  {
    if s == "" {
      assert EscAll(s) + "\"" + rest == "\"" + rest;
      assert ("\"" + rest)[1..] == rest;
    } else {
      var tail := EscAll(s[1..]) + "\"" + rest;
      assert EscAll(s) + "\"" + rest == Esc(s[0]) + tail;
      ParseQuoted(s[1..], rest);
      ParseEscaped(s[0], tail);
      assert [s[0]] + s[1..] == s;
    }
  }

  lemma {:induction false} NumberRunOf(d: string, rest: string)
    requires forall i :: 0 <= i < |d| ==> NumberChar(d[i])
    requires rest == "" || !NumberChar(rest[0])
    ensures NumberRun(d + rest) == |d|
  {
    if d == "" {
      assert d + rest == rest;
    } else {
      assert (d + rest)[1..] == d[1..] + rest;
      NumberRunOf(d[1..], rest);
    }
  }

  lemma ParseNumber(d: string, rest: string)
    requires d != "" && (forall i :: 0 <= i < |d| ==> NumberChar(d[i])) && Ends(rest)
    ensures ParseValue(d + rest) == Some((JNum(d), rest))
  {
    NumberRunOf(d, rest);
    assert (d + rest)[0] == d[0];
    assert (d + rest)[..|d|] == d && (d + rest)[|d|..] == rest;
  }

  lemma DecIsNumberText(n: int)
    ensures Dec(n) != "" && forall i :: 0 <= i < |Dec(n)| ==> NumberChar(Dec(n)[i])
  {
    if n < 0 {
      assert forall i :: 1 <= i < |Dec(n)| ==> Dec(n)[i] == Digits(-n)[i - 1];
    }
  }

  lemma ParseWord(v: Value, rest: string)
    requires v.Null? || v.Bool?
    ensures ParseValue(Serialize(v, Wanted) + rest) == Some((Erase(v), rest))
  {
    var word := Serialize(v, Wanted);
    var s := word + rest;
    assert s[0] == word[0] && s[..|word|] == word && s[|word|..] == rest;
  }

  lemma ParseString(t: string, rest: string)
    ensures ParseValue(Quote(t) + rest) == Some((JStr(t), rest))
  {
    var s := Quote(t) + rest;
    assert s[0] == '\"' && s[1..] == EscAll(t) + "\"" + rest;
    ParseQuoted(t, rest);
  }

  lemma ParseArray(inner: string, items: seq<Json>, rest: string)
    requires ParseElements(inner + ("]" + rest)) == Some((items, rest))
    ensures ParseValue("[" + inner + "]" + rest) == Some((JArr(items), rest))
  {
    var s := "[" + inner + "]" + rest;
    assert s[0] == '[' && s[1..] == inner + ("]" + rest);
  }

  lemma ParseObject(inner: string, fields: seq<JField>, rest: string)
    requires ParseMembers(inner + ("}" + rest)) == Some((fields, rest))
    ensures ParseValue("{" + inner + "}" + rest) == Some((JObj(fields), rest))
  {
    var s := "{" + inner + "}" + rest;
    assert s[0] == '{' && s[1..] == inner + ("}" + rest);
  }

  lemma {:induction false} ParseWanted(v: Value, rest: string)
    requires WellFormed(v) && Ends(rest)
    ensures ParseValue(Serialize(v, Wanted) + rest) == Some((Erase(v), rest))
    decreases v, 1
  {
    match v
    case Null => ParseWord(v, rest);
    case Bool(b) => ParseWord(v, rest);
    case Num(text) => ParseNumber(text, rest);
    case Str(t) => ParseString(t, rest);
    case Big(n) =>
      DecIsNumberText(n);
      ParseNumber(Dec(n), rest);
    case Arr(items) =>
      if items != [] {
        ParseWantedItems(items, rest);
        ItemsStart(items);
      } else {
        assert "" + ("]" + rest) == "]" + rest && ("]" + rest)[1..] == rest;
      }
      ParseArray(SerializeItems(items, Wanted), EraseItems(items), rest);
    case Obj(fields) =>
      if fields != [] {
        ParseWantedFields(fields, rest);
        FieldsStart(fields);
      } else {
        assert "" + ("}" + rest) == "}" + rest && ("}" + rest)[1..] == rest;
      }
      ParseObject(SerializeFields(fields, Wanted), EraseFields(fields), rest);
  }

  lemma FieldsStart(fs: seq<Field>)
    requires fs != []
    ensures SerializeFields(fs, Wanted) != "" && SerializeFields(fs, Wanted)[0] == '\"'
  {
    assert FieldText(fs[0], Wanted)[0] == '\"';
  }

  /** No value's text starts with a closing bracket. */
  lemma ItemsStart(vs: seq<Value>)
    requires vs != [] && AllWellFormed(vs)
    ensures SerializeItems(vs, Wanted) != "" && SerializeItems(vs, Wanted)[0] != ']'
  {
    ValueStart(vs[0]);
  }

  lemma ValueStart(v: Value)
    requires WellFormed(v)
    ensures Serialize(v, Wanted) != "" && Serialize(v, Wanted)[0] != ']'
  {
    if v.Big? {
      DecIsNumberText(v.n);
    }
  }

  lemma {:induction false} ParseWantedItems(vs: seq<Value>, rest: string)
    requires vs != [] && AllWellFormed(vs)
    ensures ParseItems(SerializeItems(vs, Wanted) + ("]" + rest)) == Some((EraseItems(vs), rest))
    decreases vs, 0
  {
    var s := SerializeItems(vs, Wanted) + ("]" + rest);
    if |vs| == 1 {
      ParseWanted(vs[0], "]" + rest);
      assert ("]" + rest)[1..] == rest;
      assert EraseItems(vs) == [Erase(vs[0])];
    } else {
      var more := SerializeItems(vs[1..], Wanted) + ("]" + rest);
      assert s == Serialize(vs[0], Wanted) + ("," + more);
      ParseWanted(vs[0], "," + more);
      assert ("," + more)[1..] == more;
      ParseWantedItems(vs[1..], rest);
    }
  }

  lemma {:induction false} ParseWantedFields(fs: seq<Field>, rest: string)
    requires fs != [] && FieldsWellFormed(fs)
    ensures ParseFields(SerializeFields(fs, Wanted) + ("}" + rest)) == Some((EraseFields(fs), rest))
    decreases fs, 0
  {
    var s := SerializeFields(fs, Wanted) + ("}" + rest);
    var key, value := fs[0].key, Serialize(fs[0].value, Wanted);
    var tail := if |fs| == 1 then "}" + rest else "," + (SerializeFields(fs[1..], Wanted) + ("}" + rest));
    FieldsText(fs, "}" + rest, tail);
    assert s[1..] == EscAll(key) + "\"" + (":" + (value + tail));
    ParseQuoted(key, ":" + (value + tail));
    assert (":" + (value + tail))[1..] == value + tail;
    ParseWanted(fs[0].value, tail);
    if |fs| == 1 {
      assert tail[1..] == rest;
      assert EraseFields(fs) == [JField(key, Erase(fs[0].value))];
    } else {
      assert tail[1..] == SerializeFields(fs[1..], Wanted) + ("}" + rest);
      ParseWantedFields(fs[1..], rest);
    }
  }

  lemma FieldsText(fs: seq<Field>, rest: string, tail: string)
    requires fs != []
    requires tail == if |fs| == 1 then rest else "," + (SerializeFields(fs[1..], Wanted) + rest)
    ensures SerializeFields(fs, Wanted) + rest ==
            "\"" + (EscAll(fs[0].key) + "\"" + (":" + (Serialize(fs[0].value, Wanted) + tail)))
  {
    FirstField(fs, rest, tail);
    Flatten("\"", EscAll(fs[0].key), ":", Serialize(fs[0].value, Wanted), tail);
  }

  lemma FirstField(fs: seq<Field>, rest: string, tail: string)
    requires fs != []
    requires tail == if |fs| == 1 then rest else "," + (SerializeFields(fs[1..], Wanted) + rest)
    ensures SerializeFields(fs, Wanted) + rest == FieldText(fs[0], Wanted) + tail
  {
    if |fs| > 1 {
      var field, more := FieldText(fs[0], Wanted), SerializeFields(fs[1..], Wanted);
      Associate(field, ",", more);
      Associate(field, "," + more, rest);
      Associate(",", more, rest);
    }
  }

  lemma Flatten(q: string, key: string, colon: string, value: string, tail: string)
    ensures (q + key + q) + colon + value + tail == q + (key + q + (colon + (value + tail)))
  {
  }

  /** For every value whose strings and keys do not clash with the tag, parsing what
      the serializer writes gives the value back, each BigInt as a number text. */
  lemma ParsingRecoversValues(v: Value)
    requires WellFormed(v) && AllClean(v)
    ensures ParseJson(JsonStringifyWithBigInts(v)) == Some(Erase(v))
  {
    StringifyExact(v);
    ParseWanted(v, "");
    assert Serialize(v, Wanted) + "" == Serialize(v, Wanted);
  }

  /** What stands at a position, given by the child to take at every level. */
  function At(v: Value, path: seq<nat>): Option<Value>
    decreases |path|
  {
    if path == [] then Some(v)
    else
      match v
      case Arr(items) => if path[0] < |items| then At(items[path[0]], path[1..]) else None
      case Obj(fields) => if path[0] < |fields| then At(fields[path[0]].value, path[1..]) else None
      case _ => None
  }

  function JsonAt(j: Json, path: seq<nat>): Option<Json>
    decreases |path|
  {
    if path == [] then Some(j)
    else
      match j
      case JArr(items) => if path[0] < |items| then JsonAt(items[path[0]], path[1..]) else None
      case JObj(fields) => if path[0] < |fields| then JsonAt(fields[path[0]].value, path[1..]) else None
      case _ => None
  }

  lemma {:induction false} EraseItemsAt(vs: seq<Value>)
    ensures |EraseItems(vs)| == |vs| && forall i :: 0 <= i < |vs| ==> EraseItems(vs)[i] == Erase(vs[i])
  {
    if vs != [] {
      EraseItemsAt(vs[1..]);
    }
  }

  lemma {:induction false} EraseFieldsAt(fs: seq<Field>)
    ensures |EraseFields(fs)| == |fs|
    ensures forall i :: 0 <= i < |fs| ==> EraseFields(fs)[i] == JField(fs[i].key, Erase(fs[i].value))
  {
    if fs != [] {
      EraseFieldsAt(fs[1..]);
    }
  }

  /** Erasing keeps every position. */
  lemma {:induction false} EraseAt(v: Value, path: seq<nat>)
    ensures JsonAt(Erase(v), path) == if At(v, path).Some? then Some(Erase(At(v, path).value)) else None
    decreases |path|
  {
    if path != [] {
      match v
      case Arr(items) =>
        EraseItemsAt(items);
        if path[0] < |items| {
          EraseAt(items[path[0]], path[1..]);
        }
      case Obj(fields) =>
        EraseFieldsAt(fields);
        if path[0] < |fields| {
          EraseAt(fields[path[0]].value, path[1..]);
        }
      case _ =>
    }
  }

  /** Wherever a BigInt stands in such a value, however large, parsing finds a number
      there whose text is that very integer. */
  lemma ParsingRecoversBigInts(v: Value, path: seq<nat>, n: int)
    requires WellFormed(v) && AllClean(v) && At(v, path) == Some(Big(n))
    ensures var parsed := ParseJson(JsonStringifyWithBigInts(v));
            && parsed.Some?
            && var found := JsonAt(parsed.value, path);
               found.Some? && found.value.JNum? && IntOf(found.value.text) == Some(n)
  {
    ParsingRecoversValues(v);
    EraseAt(v, path);
    DecExact(n);
  }
}
