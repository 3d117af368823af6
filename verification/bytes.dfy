/** Bytes and the little-endian unsigned encodings used by every WIFF field
    (`struct.pack("<B" / "<H" / "<I" / "<Q")` and `int.to_bytes(..., 'little')`). */
module Bytes {

  type byte = b: int | 0 <= b < 256

  /** 256 to the power `n`: the number of values an `n`-byte field holds. */
  function Pow256(n: nat): (r: nat)
    ensures r >= 1
  {
    if n == 0 then 1 else 256 * Pow256(n - 1)
  }

  /** `v` can be stored in an unsigned field of `w` bytes; `struct.pack`
      raises `struct.error` for anything else. */
  predicate Fits(v: int, w: nat)
  {
    0 <= v < Pow256(w)
  }

  /** `n` zero bytes. */
  function Zeros(n: nat): (r: seq<byte>)
    ensures |r| == n
    ensures forall i | 0 <= i < n :: r[i] == 0
  {
    seq(n, _ => 0)
  }

  /** The `w` least significant bytes of `v`, least significant first. A value
      that does not fit is truncated; callers that must reject it use `Pack`. */
  function LE(v: nat, w: nat): (r: seq<byte>)
    ensures |r| == w
  {
    if w == 0 then [] else [v % 256] + LE(v / 256, w - 1)
  }

  /** The unsigned value of a little-endian byte string. */
  function FromLE(s: seq<byte>): (r: nat)
  {
    if |s| == 0 then 0 else s[0] + 256 * FromLE(s[1..])
  }

  /** `struct.pack` with an unsigned format of width `w`: `struct.error` for a
      value outside `[0, 256^w)`. */
  function Pack(v: int, w: nat): (r: seq<byte>)
    requires 0 <= v < Pow256(w)
    ensures |r| == w
    ensures FromLE(r) == v
  {
    LeRoundTrip(v, w);
    LE(v, w)
  }

  lemma {:induction false} FromLEBound(s: seq<byte>)
    ensures FromLE(s) < Pow256(|s|)
  {
    if |s| > 0 {
      FromLEBound(s[1..]);
    }
  }

  /** Decoding an encoding gives the value back when it fits. */
  lemma {:induction false} LeRoundTrip(v: nat, w: nat)
    requires v < Pow256(w)
    ensures FromLE(LE(v, w)) == v
  {
    if w > 0 {
      assert v / 256 < Pow256(w - 1);
      LeRoundTrip(v / 256, w - 1);
      assert LE(v, w)[1..] == LE(v / 256, w - 1);
    }
  }

  /** Encoding a decoded string gives the string back. */
  lemma {:induction false} FromLERoundTrip(s: seq<byte>)
    ensures LE(FromLE(s), |s|) == s
  {
    if |s| > 0 {
      FromLERoundTrip(s[1..]);
      var v := FromLE(s);
      assert v % 256 == s[0];
      assert v / 256 == FromLE(s[1..]);
    }
  }

  /** Little-endian decoding of a concatenation. */
  lemma {:induction false} FromLEAppend(a: seq<byte>, b: seq<byte>)
    ensures FromLE(a + b) == FromLE(a) + Pow256(|a|) * FromLE(b)
  {
    if |a| > 0 {
      var ab := a + b;
      assert ab[0] == a[0];
      assert ab[1..] == a[1..] + b;
      FromLEAppend(a[1..], b);
      var x, y, p := FromLE(a[1..]), FromLE(b), Pow256(|a| - 1);
      assert FromLE(ab) == a[0] + 256 * (x + p * y);
      assert FromLE(a) == a[0] + 256 * x;
      assert Pow256(|a|) == 256 * p;
      Distribute(a[0], x, y, p);
    } else {
      assert a + b == b;
    }
  }

  lemma Distribute(c: int, x: int, y: int, p: int)
    ensures c + 256 * (x + p * y) == (c + 256 * x) + (256 * p) * y
  {
  }

  /** The bytes of an ASCII string (`str.encode('ascii')`). */
  function Ascii(s: string): (r: seq<byte>)
    requires forall i | 0 <= i < |s| :: s[i] as int < 128
    ensures |r| == |s|
    ensures forall i | 0 <= i < |s| :: r[i] == s[i] as int
  {
    seq(|s|, i requires 0 <= i < |s| => s[i] as int)
  }
}
