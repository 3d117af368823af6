/** The `bitfield` of `wiff/bits.py`: a growable list of bits, index 0 least
    significant, packed eight to a byte. WAVE chunks keep their 256-bit
    channel-presence vector in one. */
module Bits {
  import opened Bytes
  import opened Errors

  /** `bits[k] = v`. An index at or past the end first extends the list with
      zeros up to length `k + 1`; a negative index counts from the end, as
      Python lists do, and one before the start is an `IndexError`. */
  function SetItem(bits: seq<int>, k: int, v: int): (r: Result<seq<int>>)
    ensures r.Err? <==> k < -|bits|
    ensures r.Err? ==> r.error == IndexError
    ensures k >= 0 && r.Ok? ==> |r.value| == if k < |bits| then |bits| else k + 1
    ensures k >= 0 && r.Ok? ==> r.value[k] == v
    ensures k >= 0 && r.Ok? ==>
      forall i | 0 <= i < |r.value| && i != k :: r.value[i] == if i < |bits| then bits[i] else 0
    ensures k < 0 && r.Ok? ==> r.value == bits[|bits| + k := v]
  {
    if k >= |bits| then Ok((bits + seq(k + 1 - |bits|, _ => 0))[k := v])
    else if k >= 0 then Ok(bits[k := v])
    else if -k <= |bits| then Ok(bits[|bits| + k := v])
    else Err(IndexError)
  }

  /** `self[i] = v` for each index of `idx` in turn (the loops of `set` and
      `clear`); the first bad index stops the loop. */
  function Assign(bits: seq<int>, idx: seq<int>, v: int): (r: Result<seq<int>>)
    decreases |idx|
  {
    if |idx| == 0 then Ok(bits)
    else
      var b :- SetItem(bits, idx[0], v);
      Assign(b, idx[1..], v)
  }

  /** `bitfield.set(*vals)`. */
  function Set(bits: seq<int>, idx: seq<int>): Result<seq<int>>
  {
    Assign(bits, idx, 1)
  }

  /** `bitfield.clear(*vals)`. */
  function Clear(bits: seq<int>, idx: seq<int>): Result<seq<int>>
  {
    Assign(bits, idx, 0)
  }

  /** Assigning non-negative indices always succeeds; afterwards every
      assigned index holds `v`, the list is long enough for every index, and
      any other position holds its old bit, or zero past the old end. */
  lemma {:induction false} AssignNonNegative(bits: seq<int>, idx: seq<int>, v: int)
    requires forall j | 0 <= j < |idx| :: idx[j] >= 0
    decreases |idx|
    ensures Assign(bits, idx, v).Ok?
    ensures var r := Assign(bits, idx, v).value;
      && |r| >= |bits|
      && (|r| > |bits| ==> |r| - 1 in idx)
      && (forall j | 0 <= j < |idx| :: idx[j] < |r| && r[idx[j]] == v)
      && (forall i | 0 <= i < |r| && i !in idx :: r[i] == if i < |bits| then bits[i] else 0)
  {
    if |idx| > 0 {
      var b := SetItem(bits, idx[0], v).value;
      AssignNonNegative(b, idx[1..], v);
      var r := Assign(b, idx[1..], v).value;
      assert Assign(bits, idx, v).value == r;
      forall j | 0 <= j < |idx|
        ensures idx[j] < |r| && r[idx[j]] == v
      {
        if j > 0 {
          assert idx[j] == idx[1..][j - 1];
        } else if idx[0] !in idx[1..] {
          assert r[idx[0]] == b[idx[0]];
        } else {
          var m :| 0 <= m < |idx[1..]| && idx[1..][m] == idx[0];
          assert r[idx[1..][m]] == v;
        }
      }
      forall i | 0 <= i < |r| && i !in idx
        ensures r[i] == if i < |bits| then bits[i] else 0
      {
        assert i != idx[0] && i !in idx[1..];
      }
    }
  }

  /** The positions from `i` on whose bit is set (`want`) or clear (`!want`). */
  function IndicesFrom(bits: seq<int>, i: nat, want: bool): (r: seq<nat>)
    decreases |bits| - i
  {
    if i >= |bits| then []
    else (if (bits[i] != 0) == want then [i] else []) + IndicesFrom(bits, i + 1, want)
  }

  /** `bitfield.set_indices()`. */
  function SetIndices(bits: seq<int>): seq<nat>
  {
    IndicesFrom(bits, 0, true)
  }

  /** `bitfield.clear_indices()`. */
  function ClearIndices(bits: seq<int>): seq<nat>
  {
    IndicesFrom(bits, 0, false)
  }

  predicate Ascending(s: seq<nat>)
  {
    forall a, b | 0 <= a < b < |s| :: s[a] < s[b]
  }

  /** The indices are listed in ascending order, and a position from `i` on
      is listed exactly when its bit matches `want`. */
  lemma {:induction false} IndicesFromSpec(bits: seq<int>, i: nat, want: bool)
    decreases |bits| - i
    ensures Ascending(IndicesFrom(bits, i, want))
    ensures forall x :: x in IndicesFrom(bits, i, want) <==> i <= x < |bits| && (bits[x] != 0) == want
  {
    if i < |bits| {
      IndicesFromSpec(bits, i + 1, want);
      var rest := IndicesFrom(bits, i + 1, want);
      var head: seq<nat> := if (bits[i] != 0) == want then [i] else [];
      assert IndicesFrom(bits, i, want) == head + rest;
      forall a, b | 0 <= a < b < |head + rest|
        ensures (head + rest)[a] < (head + rest)[b]
      {
        if a < |head| {
          assert (head + rest)[b] in rest;
        }
      }
    }
  }

  /** `set_indices` and `clear_indices` are ascending and split
      `range(len(bits))` between them. */
  lemma SetClearPartition(bits: seq<int>)
    ensures Ascending(SetIndices(bits)) && Ascending(ClearIndices(bits))
    ensures forall x: nat :: x in SetIndices(bits) <==> x < |bits| && bits[x] != 0
    ensures forall x: nat :: x in ClearIndices(bits) <==> x < |bits| && bits[x] == 0
    ensures forall x: nat :: x < |bits| <==> (x in SetIndices(bits) || x in ClearIndices(bits))
    ensures forall x: nat :: !(x in SetIndices(bits) && x in ClearIndices(bits))
  {
    IndicesFromSpec(bits, 0, true);
    IndicesFromSpec(bits, 0, false);
  }

  /** Two lists that agree on which bits are non-zero have the same indices. */
  lemma {:induction false} IndicesAgree(a: seq<int>, b: seq<int>, i: nat, want: bool)
    requires |a| == |b|
    requires forall k | 0 <= k < |a| :: (a[k] != 0) == (b[k] != 0)
    decreases |a| - i
    ensures IndicesFrom(a, i, want) == IndicesFrom(b, i, want)
  {
    if i < |a| {
      IndicesAgree(a, b, i + 1, want);
    }
  }

  /** Trailing zero bits add no set index. */
  lemma {:induction false} SetIndicesZeroTail(a: seq<int>, n: nat, i: nat)
    decreases |a| + n - i
    ensures IndicesFrom(a + Zeros(n), i, true) == IndicesFrom(a, i, true)
  {
    var z := a + Zeros(n);
    if i < |z| {
      SetIndicesZeroTail(a, n, i + 1);
      if i >= |a| {
        assert z[i] == 0;
      }
    }
  }

  function Reverse(s: seq<int>): (r: seq<int>)
    ensures |r| == |s|
  {
    if |s| == 0 then [] else Reverse(s[1..]) + [s[0]]
  }

  /** `functools.reduce(lambda x, y: x*2 + y, s, acc)`. */
  function Horner(acc: int, s: seq<int>): int
    decreases |s|
  {
    if |s| == 0 then acc else Horner(acc * 2 + s[0], s[1..])
  }

  /** `bitfield.bitstobytes(bits)`: the reduction over the reversed list. */
  function BitsToByte(bits: seq<int>): int
  {
    Horner(0, Reverse(bits))
  }

  function Pow2(n: nat): (r: nat)
    ensures r >= 1
  {
    if n == 0 then 1 else 2 * Pow2(n - 1)
  }

  /** The sum of `bits[i] * 2^i`: index 0 is the least significant bit. */
  function Weighted(bits: seq<int>): (r: int)
    ensures IsBitList(bits) ==> 0 <= r < Pow2(|bits|)
  {
    if |bits| == 0 then 0 else bits[0] + 2 * Weighted(bits[1..])
  }

  lemma {:induction false} HornerSnoc(acc: int, s: seq<int>, y: int)
    decreases |s|
    ensures Horner(acc, s + [y]) == Horner(acc, s) * 2 + y
  {
    if |s| > 0 {
      assert (s + [y])[1..] == s[1..] + [y];
      HornerSnoc(acc * 2 + s[0], s[1..], y);
    }
  }

  /** Reducing the reversed list from the most significant end computes the
      little-endian weighted sum of the list. */
  lemma {:induction false} BitsToByteWeighted(bits: seq<int>)
    decreases |bits|
    ensures BitsToByte(bits) == Weighted(bits)
  {
    if |bits| > 0 {
      BitsToByteWeighted(bits[1..]);
      HornerSnoc(0, Reverse(bits[1..]), bits[0]);
    }
  }

  /** `bitstobytes` reverses its argument in place and reverses it back: the
      caller's list is left as it was. */
  lemma {:induction false} ReverseTwice(s: seq<int>)
    decreases |s|
    ensures Reverse(Reverse(s)) == s
  {
    if |s| > 0 {
      ReverseAppend(Reverse(s[1..]), [s[0]]);
      ReverseTwice(s[1..]);
      assert Reverse([s[0]]) == [s[0]];
      assert s == [s[0]] + s[1..];
    }
  }

  lemma {:induction false} ReverseAppend(a: seq<int>, b: seq<int>)
    decreases |a|
    ensures Reverse(a + b) == Reverse(b) + Reverse(a)
  {
    if |a| == 0 {
      assert a + b == b;
    } else {
      assert (a + b)[1..] == a[1..] + b;
      ReverseAppend(a[1..], b);
    }
  }

  predicate IsBitList(bits: seq<int>)
  {
    forall i | 0 <= i < |bits| :: bits[i] == 0 || bits[i] == 1
  }

  /** The `n` lowest bits of `v`, least significant first: the reversed,
      zero-filled `bin(v)` digits `bytestobits` produces for one byte. */
  function LsbBits(v: nat, n: nat): (r: seq<int>)
    ensures |r| == n && IsBitList(r)
  {
    if n == 0 then [] else [v % 2] + LsbBits(v / 2, n - 1)
  }

  /** Reading the bits back gives the value, when it fits in `n` bits. */
  lemma {:induction false} LsbBitsWeighted(v: nat, n: nat)
    requires v < Pow2(n)
    decreases n
    ensures Weighted(LsbBits(v, n)) == v
  {
    if n > 0 {
      LsbBitsWeighted(v / 2, n - 1);
    }
  }

  /** Writing out the bits of a weighted sum gives the list back, padded with
      zeros to `n` bits. */
  lemma {:induction false} WeightedLsbBits(bits: seq<int>, n: nat)
    requires IsBitList(bits) && |bits| <= n
    decreases n
    ensures LsbBits(Weighted(bits), n) == bits + Zeros(n - |bits|)
  {
    if n > 0 {
      if |bits| == 0 {
        WeightedLsbBits([], n - 1);
        assert LsbBits(0, n) == [0] + LsbBits(0, n - 1);
        assert Zeros(n) == [0] + Zeros(n - 1);
      } else {
        WeightedLsbBits(bits[1..], n - 1);
        assert Weighted(bits) % 2 == bits[0] && Weighted(bits) / 2 == Weighted(bits[1..]);
        assert bits == [bits[0]] + bits[1..];
      }
    }
  }

  /** `bitfield.bytestobits(bs)`: eight bits per byte, each byte least
      significant bit first. */
  function BytesToBits(bs: seq<byte>): (r: seq<int>)
    ensures |r| == 8 * |bs|
    ensures IsBitList(r)
  {
    if |bs| == 0 then [] else LsbBits(bs[0], 8) + BytesToBits(bs[1..])
  }

  /** `bitfield.from_bytes(bs)`: the bit list of a fresh bitfield. */
  function FromBytes(bs: seq<byte>): seq<int>
  {
    BytesToBits(bs)
  }

  /** Every bit forced to 0 or 1, the first loop of `to_bytes`. */
  function Normalise(bits: seq<int>): (r: seq<int>)
    ensures |r| == |bits| && IsBitList(r)
    ensures forall i | 0 <= i < |bits| :: (r[i] != 0) == (bits[i] != 0)
  {
    seq(|bits|, i requires 0 <= i < |bits| => if bits[i] != 0 then 1 else 0)
  }

  /** One `bitstobytes` per slice `bits[i:i+8]` (the last slice may be short). */
  function PackGroups(bits: seq<int>): (r: seq<byte>)
    requires IsBitList(bits)
    decreases |bits|
  {
    if |bits| == 0 then []
    else
      var n := if |bits| < 8 then |bits| else 8;
      var g := bits[..n];
      BitsToByteWeighted(g);
      [BitsToByte(g) as byte] + PackGroups(bits[n..])
  }

  /** `bitfield.to_bytes()`: one byte per started group of eight bits. */
  function ToBytes(bits: seq<int>): (r: seq<byte>)
  {
    PackGroups(Normalise(bits))
  }

  lemma {:induction false} PackGroupsLength(bits: seq<int>)
    requires IsBitList(bits)
    decreases |bits|
    ensures |PackGroups(bits)| == (|bits| + 7) / 8
  {
    if |bits| > 0 {
      var n := if |bits| < 8 then |bits| else 8;
      PackGroupsLength(bits[n..]);
    }
  }

  /** Unpacking packed groups gives the bits back followed by the zeros that
      fill the last byte. */
  lemma {:induction false} PackGroupsRoundTrip(bits: seq<int>)
    requires IsBitList(bits)
    decreases |bits|
    ensures BytesToBits(PackGroups(bits)) == bits + Zeros(8 * ((|bits| + 7) / 8) - |bits|)
  {
    PackGroupsLength(bits);
    if |bits| == 0 {
    } else {
      var n := if |bits| < 8 then |bits| else 8;
      var g := bits[..n];
      var rest := bits[n..];
      var p := PackGroups(bits);
      PackGroupsRoundTrip(rest);
      BitsToByteWeighted(g);
      WeightedLsbBits(g, 8);
      assert p[0] == Weighted(g) && p[1..] == PackGroups(rest);
      if |bits| < 8 {
        assert rest == [];
        assert BytesToBits(p) == g + Zeros(8 - n);
      } else {
        assert BytesToBits(p) == g + (rest + Zeros(8 * ((|rest| + 7) / 8) - |rest|));
        assert bits == g + rest;
      }
    }
  }

  /** `to_bytes` emits `ceil(len / 8)` bytes, and `from_bytes` of them gives
      back the bits, forced to 0 or 1, padded with zeros to a whole byte. */
  lemma ToBytesRoundTrip(bits: seq<int>)
    ensures |ToBytes(bits)| == (|bits| + 7) / 8
    ensures FromBytes(ToBytes(bits)) == Normalise(bits) + Zeros(8 * ((|bits| + 7) / 8) - |bits|)
  {
    PackGroupsLength(Normalise(bits));
    PackGroupsRoundTrip(Normalise(bits));
  }

  /** Packing and unpacking keeps exactly the set indices. */
  lemma ToBytesKeepsSetIndices(bits: seq<int>)
    ensures SetIndices(FromBytes(ToBytes(bits))) == SetIndices(bits)
  {
    ToBytesRoundTrip(bits);
    var pad := 8 * ((|bits| + 7) / 8) - |bits|;
    SetIndicesZeroTail(Normalise(bits), pad, 0);
    IndicesAgree(Normalise(bits), bits, 0, true);
  }

  /** Unpacking and packing bytes gives the bytes back. */
  lemma {:induction false} FromBytesRoundTrip(bs: seq<byte>)
    decreases |bs|
    ensures ToBytes(FromBytes(bs)) == bs
  {
    var bits := BytesToBits(bs);
    assert Normalise(bits) == bits;
    if |bs| > 0 {
      FromBytesRoundTrip(bs[1..]);
      assert Normalise(BytesToBits(bs[1..])) == BytesToBits(bs[1..]);
      LsbBitsWeighted(bs[0], 8);
      BitsToByteWeighted(LsbBits(bs[0], 8));
      assert bits[..8] == LsbBits(bs[0], 8) && bits[8..] == BytesToBits(bs[1..]);
    }
  }

  /** The channel-presence bitmap of a WAVE header: bit 255 cleared (so the
      list has 256 bits), then the bit of every active channel set, packed. */
  function ChannelBitmap(channels: seq<int>): (r: Result<seq<byte>>)
  {
    match Clear([], [255])
    case Err(e) => Err(e)
    case Ok(b) =>
      match Set(b, channels)
      case Err(e) => Err(e)
      case Ok(b2) => Ok(ToBytes(b2))
  }

  /** For channel indices `0..255` the bitmap is 32 bytes and unpacks to
      exactly the listed channels; an index from 256 on lengthens it. */
  lemma ChannelBitmapRoundTrip(channels: seq<int>)
    requires forall j | 0 <= j < |channels| :: channels[j] >= 0
    ensures ChannelBitmap(channels).Ok?
    ensures (|ChannelBitmap(channels).value| == 32) <==> (forall j | 0 <= j < |channels| :: channels[j] < 256)
    ensures (forall j | 0 <= j < |channels| :: channels[j] < 256) ==>
      forall x :: x in SetIndices(FromBytes(ChannelBitmap(channels).value)) <==> x in channels
  {
    var b := Clear([], [255]).value;
    assert |b| == 256 && forall i | 0 <= i < 256 :: b[i] == 0;
    AssignNonNegative(b, channels, 1);
    var b2 := Set(b, channels).value;
    ToBytesRoundTrip(b2);
    if forall j | 0 <= j < |channels| :: channels[j] < 256 {
      assert |b2| == 256;
      ToBytesKeepsSetIndices(b2);
      SetClearPartition(b2);
    } else {
      var j :| 0 <= j < |channels| && channels[j] >= 256;
      assert |b2| > 256;
    }
  }
}
