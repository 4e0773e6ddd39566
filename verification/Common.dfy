/** Vocabulary shared by the models: optional values, results, bytes. */
module Common {

  datatype Option<+T> = None | Some(value: T)

  datatype Result<+T, +E> = Ok(value: T) | Err(error: E)

  newtype byte = x: int | 0 <= x < 256

  type Bytes = seq<byte>
}

/** Java's 64-bit `long` and 32-bit `int`: two's-complement wrap-around and the
    truncating `/` and `%`. */
module JavaInts {

  const TWO_32: int := 0x1_0000_0000
  const TWO_64: int := 0x1_0000_0000_0000_0000
  const LONG_MAX: int := 0x7FFF_FFFF_FFFF_FFFF
  const LONG_MIN: int := -0x8000_0000_0000_0000

  predicate IsLong(x: int) {
    LONG_MIN <= x <= LONG_MAX
  }

  function WrapLong(x: int): (r: int)
    ensures IsLong(r)
    ensures IsLong(x) ==> r == x
  {
    (x - LONG_MIN) % TWO_64 + LONG_MIN
  }

  function CastInt(x: int): (r: int)
    ensures -0x8000_0000 <= r < 0x8000_0000
    ensures -0x8000_0000 <= x < 0x8000_0000 ==> r == x
  {
    (x + 0x8000_0000) % TWO_32 - 0x8000_0000
  }

  /** Division rounding toward zero. */
  function TruncDiv(a: int, b: int): (q: int)
    requires b > 0
  {
    if a >= 0 then a / b else -((-a) / b)
  }

  /** Remainder with the sign of the dividend. */
  function TruncMod(a: int, b: int): (r: int)
    requires b > 0
    ensures -b < r < b
    ensures a >= 0 ==> r == a % b
    ensures a < 0 ==> r <= 0
  {
    if a >= 0 then a % b else -((-a) % b)
  }

  lemma WrapLongAbsorbs(a: int, b: int)
    ensures WrapLong(WrapLong(a) + b) == WrapLong(a + b)
  {
    var u := a - LONG_MIN;
    var q := u / TWO_64;
    assert u == q * TWO_64 + u % TWO_64;
    ModShift(u % TWO_64 + b, q);
  }

  /** Wrapping and casting only take off whole turns of 64 and of 32 bits. */
  lemma WrapsWholeTurns(x: int) returns (turns: int)
    ensures x == WrapLong(x) + TWO_64 * turns
  {
    turns := (x - LONG_MIN) / TWO_64;
  }

  lemma CastsWholeTurns(x: int) returns (turns: int)
    ensures x == CastInt(x) + TWO_32 * turns
  {
    turns := (x + 0x8000_0000) / TWO_32;
  }

  lemma ModShift(x: int, q: int)
    ensures (x + q * TWO_64) % TWO_64 == x % TWO_64
  {
    var d := x / TWO_64;
    var r := x % TWO_64;
    assert x + q * TWO_64 == (d + q) * TWO_64 + r;
  }
}

/** Lower-case hexadecimal digits. */
module HexDigits {
  import opened Common

  function DigitChar(d: nat): (c: char)
    requires d < 16
    ensures HexDigit(c) == Some(d)
  {
    if d < 10 then ('0' as int + d) as char else ('a' as int + d - 10) as char
  }

  lemma DigitsAreThese(d: nat)
    requires d < 16
    ensures DigitChar(d) == "0123456789abcdef"[d]
  {
  }

  function HexDigit(c: char): Option<nat> {
    if '0' <= c <= '9' then Some(c as int - '0' as int)
    else if 'a' <= c <= 'f' then Some(c as int - 'a' as int + 10)
    else None
  }
}

/** Texts as sequences of characters. */
module Texts {
  function LowerChar(c: char): char {
    if 'A' <= c <= 'Z' then (c as int + 32) as char else c
  }

  function Lower(s: string): (r: string)
    ensures |r| == |s|
  {
    seq(|s|, i requires 0 <= i < |s| => LowerChar(s[i]))
  }

  /** Capital letters are lowered, everything else stays. */
  lemma LowerMeans(s: string, i: nat)
    requires i < |s|
    ensures !('A' <= s[i] <= 'Z') ==> Lower(s)[i] == s[i]
    ensures 'A' <= s[i] <= 'Z' ==> Lower(s)[i] == "abcdefghijklmnopqrstuvwxyz"[s[i] as int - 65]
  {
  }

  lemma Associate(a: string, b: string, c: string)
    ensures a + (b + c) == (a + b) + c
  {
  }
}
