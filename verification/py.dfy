/** The Python values the WIFF core inspects with `isinstance`/`type` before it
    decides what to do with an argument, and the text helpers it relies on. */
module Py {
  import opened Bytes
  import opened Errors

  /** An argument as the core sees it. `Bool` is separate from `Int` because
      `isinstance(True, int)` holds while `type(True) == int` does not. Float
      payloads are never inspected, so `Float` carries none. */
  datatype Value =
    | Int(i: int)
    | Bool(b: bool)
    | Float
    | Str(s: string)
    | Bytes(bs: seq<byte>)
    | Tuple(items: seq<Value>)
    | List(items: seq<Value>)
    | Interval(start: int, stop: int)   // bstruct.interval
    | NoneValue
    | Other

  /** `isinstance(v, int)`. */
  predicate IsInt(v: Value)
  {
    v.Int? || v.Bool?
  }

  /** The integer an `isinstance(v, int)` value stands for. */
  function IntOf(v: Value): int
    requires IsInt(v)
  {
    match v
    case Int(i) => i
    case Bool(b) => if b then 1 else 0
  }

  /** `type(a) == type(b)`: same constructor (the contents do not matter). */
  predicate SameType(a: Value, b: Value)
  {
    match (a, b)
    case (Int(_), Int(_)) => true
    case (Bool(_), Bool(_)) => true
    case (Float, Float) => true
    case (Str(_), Str(_)) => true
    case (Bytes(_), Bytes(_)) => true
    case (Tuple(_), Tuple(_)) => true
    case (List(_), List(_)) => true
    case (Interval(_, _), Interval(_, _)) => true
    case (NoneValue, NoneValue) => true
    case (Other, Other) => true
    case _ => false
  }

  /** Number of bytes `c` takes in UTF-8. */
  function Utf8Width(c: char): (r: nat)
    ensures 1 <= r <= 4
    ensures r == 1 <==> c as int < 128
  {
    if c as int < 0x80 then 1
    else if c as int < 0x800 then 2
    else if c as int < 0x10000 then 3
    else 4
  }

  /** `len(s.encode('utf8'))`. */
  function Utf8Len(s: string): (r: nat)
  {
    if |s| == 0 then 0 else Utf8Width(s[0]) + Utf8Len(s[1..])
  }

  /** A UTF-8 continuation byte, `10xxxxxx`. */
  predicate Cont(b: byte)
  {
    0x80 <= b < 0xC0
  }

  /** The second byte of a 3-byte sequence led by `b0`: `E0` excludes the
      overlong forms, `ED` the surrogates. */
  predicate Second3(b0: byte, b1: byte)
  {
    if b0 == 0xE0 then 0xA0 <= b1 < 0xC0
    else if b0 == 0xED then 0x80 <= b1 < 0xA0
    else Cont(b1)
  }

  /** The second byte of a 4-byte sequence led by `b0`: `F0` excludes the
      overlong forms, `F4` everything above U+10FFFF. */
  predicate Second4(b0: byte, b1: byte)
  {
    if b0 == 0xF0 then 0x90 <= b1 < 0xC0
    else if b0 == 0xF4 then 0x80 <= b1 < 0x90
    else Cont(b1)
  }

  /** `bs.decode('utf8')` succeeds: `bs` is a run of well-formed UTF-8
      sequences as table 3-7 of the Unicode Standard lists them. A sequence
      cut short by the end of `bs` is malformed. */
  predicate Utf8Valid(bs: seq<byte>)
    decreases |bs|
  {
    if |bs| == 0 then true
    else if bs[0] < 0x80 then Utf8Valid(bs[1..])
    else if 0xC2 <= bs[0] < 0xE0 then
      |bs| >= 2 && Cont(bs[1]) && Utf8Valid(bs[2..])
    else if 0xE0 <= bs[0] < 0xF0 then
      |bs| >= 3 && Second3(bs[0], bs[1]) && Cont(bs[2]) && Utf8Valid(bs[3..])
    else if 0xF0 <= bs[0] < 0xF5 then
      |bs| >= 4 && Second4(bs[0], bs[1]) && Cont(bs[2]) && Cont(bs[3]) && Utf8Valid(bs[4..])
    else false
  }

  /** `c.encode('utf8')`. */
  function Utf8EncodeChar(c: char): (r: seq<byte>)
    ensures |r| == Utf8Width(c)
  {
    var n := c as int;
    if n < 0x80 then [n]
    else if n < 0x800 then [0xC0 + n / 64, 0x80 + n % 64]
    else if n < 0x10000 then [0xE0 + n / 4096, 0x80 + n / 64 % 64, 0x80 + n % 64]
    else [0xF0 + n / 262144, 0x80 + n / 4096 % 64, 0x80 + n / 64 % 64, 0x80 + n % 64]
  }

  /** `s.encode('utf8')`. */
  function Utf8Encode(s: string): (r: seq<byte>)
  {
    if |s| == 0 then [] else Utf8EncodeChar(s[0]) + Utf8Encode(s[1..])
  }

  /** Every encoded character is one well-formed sequence: the encoder never
      produces an overlong form, a surrogate or a code point past U+10FFFF. */
  lemma Utf8EncodeCharValid(c: char, rest: seq<byte>)
    requires Utf8Valid(rest)
    ensures Utf8Valid(Utf8EncodeChar(c) + rest)
  {
    var e := Utf8EncodeChar(c);
    var n := c as int;
    assert (e + rest)[|e|..] == rest;
    if 0x800 <= n < 0x10000 {
      assert 0xD800 <= n < 0xE000 ==> false;
      assert n / 4096 == 0 ==> n / 64 % 64 >= 32;
      assert n / 4096 == 13 ==> n / 64 % 64 < 32;
    } else if n >= 0x10000 {
      assert n / 262144 == 0 ==> n / 4096 % 64 >= 16;
      assert n / 262144 == 4 ==> n / 4096 % 64 < 16;
    }
  }

  /** Encoding any text gives valid UTF-8 of `Utf8Len(s)` bytes, so the
      decoder accepts whatever the encoder writes. */
  lemma {:induction false} Utf8EncodeValid(s: string)
    ensures Utf8Valid(Utf8Encode(s))
    ensures |Utf8Encode(s)| == Utf8Len(s)
  {
    if |s| > 0 {
      Utf8EncodeValid(s[1..]);
      Utf8EncodeCharValid(s[0], Utf8Encode(s[1..]));
    }
  }

  /** Bytes below 0x80 always decode; a lone 0xFF byte never does. */
  lemma {:induction false} Utf8ValidAscii(bs: seq<byte>)
    requires forall i | 0 <= i < |bs| :: bs[i] < 0x80
    ensures Utf8Valid(bs)
    ensures !Utf8Valid([0xFF] + bs)
  {
    if |bs| > 0 {
      Utf8ValidAscii(bs[1..]);
    }
  }

  predicate IsAscii(s: string)
  {
    forall i | 0 <= i < |s| :: s[i] as int < 128
  }

  /** For ASCII text the encoded length is the character count, which is what
      the record offsets (computed with `len(str)`) assume. */
  lemma {:induction false} Utf8LenAscii(s: string)
    ensures Utf8Len(s) >= |s|
    ensures IsAscii(s) <==> Utf8Len(s) == |s|
  {
    if |s| > 0 {
      Utf8LenAscii(s[1..]);
      if IsAscii(s) {
        assert IsAscii(s[1..]) by {
          forall i | 0 <= i < |s| - 1 ensures s[1..][i] as int < 128 {
            assert s[1..][i] == s[i + 1];
          }
        }
      } else {
        var k :| 0 <= k < |s| && s[k] as int >= 128;
        if k > 0 {
          assert s[1..][k - 1] == s[k];
          assert !IsAscii(s[1..]);
        }
      }
    }
  }

  /** `len(v)` for the text arguments of the `lenplan` functions: the UTF-8
      length of a `str`, the length of `bytes`, `TypeError` otherwise. */
  function TextLen(v: Value): (r: Result<nat>)
    ensures r.Ok? <==> v.Str? || v.Bytes?
    ensures v.Str? ==> r == Ok(Utf8Len(v.s))
    ensures v.Bytes? ==> r == Ok(|v.bs|)
  {
    match v
    case Str(s) => Ok(Utf8Len(s))
    case Bytes(bs) => Ok(|bs|)
    case _ => Err(TypeError)
  }

  /** `len(v)`: characters of a `str`, bytes of a `bytes`, items of a tuple
      or list; `TypeError` for a value without a length. */
  function PyLen(v: Value): (r: Result<nat>)
    ensures r.Ok? <==> v.Str? || v.Bytes? || v.Tuple? || v.List?
  {
    match v
    case Str(s) => Ok(|s|)
    case Bytes(bs) => Ok(|bs|)
    case Tuple(items) => Ok(|items|)
    case List(items) => Ok(|items|)
    case _ => Err(TypeError)
  }

  /** The upper-case of an ASCII letter; every other character is unchanged. */
  function UpperChar(c: char): char
  {
    if 'a' <= c <= 'z' then (c as int - 32) as char else c
  }

  function LowerChar(c: char): char
  {
    if 'A' <= c <= 'Z' then (c as int + 32) as char else c
  }

  /** `str.upper()` restricted to ASCII case mapping. */
  function Upper(s: string): (r: string)
    ensures |r| == |s|
    ensures forall i | 0 <= i < |s| :: r[i] == UpperChar(s[i])
  {
    seq(|s|, i requires 0 <= i < |s| => UpperChar(s[i]))
  }

  function Lower(s: string): (r: string)
    ensures |r| == |s|
    ensures forall i | 0 <= i < |s| :: r[i] == LowerChar(s[i])
  {
    seq(|s|, i requires 0 <= i < |s| => LowerChar(s[i]))
  }
}
