/** Frame sizes and the frame serialiser/deserialiser that
    `WIFFWAVE.setup` builds (`wiff/wiffwave.py`). A frame is one sample per
    active channel; each sample is stored little-endian in its channel's
    byte width. */
module FrameCodec {
  import opened Bytes
  import opened Errors

  /** A channel's byte width as the source computes it:
      `(bits + bits % 8) // 8`. */
  function ChannelWidth(bits: nat): nat
  {
    (bits + bits % 8) / 8
  }

  /** The width rounds the bit count up to whole bytes exactly when
      `bits % 8` is 0 or at least 4; for a remainder of 1 to 3 it rounds
      down instead (9 bits give 1 byte, 3 bits give 0). */
  lemma ChannelWidthCeil(bits: nat)
    ensures ChannelWidth(bits) == (bits + 7) / 8 <==> bits % 8 == 0 || bits % 8 >= 4
    ensures ChannelWidth(bits) == bits / 8 + (if bits % 8 >= 4 then 1 else 0)
    ensures ChannelWidth(bits) <= (bits + 7) / 8
  {
    var q, m := bits / 8, bits % 8;
    assert bits == 8 * q + m;
    assert bits + bits % 8 == 8 * q + 2 * m;
    assert (8 * q + 2 * m) / 8 == q + (2 * m) / 8;
    assert (bits + 7) / 8 == q + (m + 7) / 8;
  }

  /** Two widths that show the rounding down. */
  lemma ChannelWidthExamples()
    ensures ChannelWidth(9) == 1 && (9 + 7) / 8 == 2
    ensures ChannelWidth(3) == 0 && (3 + 7) / 8 == 1
    ensures ChannelWidth(12) == 2 && ChannelWidth(16) == 2
  {
  }

  function Sum(xs: seq<nat>): nat
  {
    if |xs| == 0 then 0 else xs[0] + Sum(xs[1..])
  }

  /** `channel_sizes`: `bits + bits % 8` per active channel, in bits. */
  function PaddedBits(bits: seq<nat>): (r: seq<nat>)
    ensures |r| == |bits| && forall i | 0 <= i < |bits| :: r[i] == bits[i] + bits[i] % 8
  {
    seq(|bits|, i requires 0 <= i < |bits| => bits[i] + bits[i] % 8)
  }

  /** The per-channel byte widths `setup` feeds to the codec. */
  function Widths(bits: seq<nat>): (r: seq<nat>)
    ensures |r| == |bits| && forall i | 0 <= i < |bits| :: r[i] == ChannelWidth(bits[i])
  {
    seq(|bits|, i requires 0 <= i < |bits| => ChannelWidth(bits[i]))
  }

  /** `setup`'s frame size: the sum of the per-channel byte widths. */
  function SetupFrameSize(bits: seq<nat>): nat
  {
    Sum(Widths(bits))
  }

  /** `frame_size` (and `initheader`'s record size): the padded bit counts
      are summed first and divided by 8 once. */
  function FrameSize(bits: seq<nat>): nat
  {
    Sum(PaddedBits(bits)) / 8
  }

  /** What the per-channel division throws away: the padded bit counts
      modulo 8. */
  function Leftover(bits: seq<nat>): nat
  {
    if |bits| == 0 then 0 else (bits[0] + bits[0] % 8) % 8 + Leftover(bits[1..])
  }

  lemma {:induction false} PaddedSplit(bits: seq<nat>)
    ensures Sum(PaddedBits(bits)) == 8 * SetupFrameSize(bits) + Leftover(bits)
  {
    if |bits| > 0 {
      PaddedSplit(bits[1..]);
      assert PaddedBits(bits)[1..] == PaddedBits(bits[1..]);
      assert Widths(bits)[1..] == Widths(bits[1..]);
      var p := bits[0] + bits[0] % 8;
      assert p == 8 * (p / 8) + p % 8;
    }
  }

  /** The two frame sizes differ by the whole bytes hidden in the
      leftovers: `frame_size` is never smaller than `setup`'s, and they
      agree exactly when the leftovers add up to less than a byte (always
      so when every padded bit count is a multiple of 8). */
  lemma FrameSizesRelate(bits: seq<nat>)
    ensures FrameSize(bits) == SetupFrameSize(bits) + Leftover(bits) / 8
    ensures FrameSize(bits) >= SetupFrameSize(bits)
    ensures FrameSize(bits) == SetupFrameSize(bits) <==> Leftover(bits) < 8
  {
    PaddedSplit(bits);
  }

  /** Two 10-bit channels: `setup` strides 2 bytes, `frame_size` says 3. */
  lemma FrameSizesDiffer()
    ensures SetupFrameSize([10, 10]) == 2
    ensures FrameSize([10, 10]) == 3
  {
    assert Widths([10, 10]) == [1, 1];
    assert PaddedBits([10, 10]) == [12, 12];
  }

  // ---- the codec

  /** Every width is one `struct` handles (`B`, `H`, `I`, `Q`). */
  predicate Sane(ws: seq<nat>)
  {
    forall i | 0 <= i < |ws| :: ws[i] in {1, 2, 4, 8}
  }

  /** Every sample fits its channel's width. */
  predicate SamplesFit(ws: seq<nat>, samps: seq<int>)
    requires |samps| >= |ws|
  {
    forall i | 0 <= i < |ws| :: Fits(samps[i], ws[i])
  }

  /** The samples' little-endian encodings, one after another. */
  function Encode(ws: seq<nat>, samps: seq<int>): (r: seq<byte>)
    requires |samps| >= |ws| && SamplesFit(ws, samps)
    ensures |r| == Sum(ws)
  {
    if |ws| == 0 then []
    else LE(samps[0], ws[0]) + Encode(ws[1..], samps[1..])
  }

  /** Python's clamped `dat[:w]` and `dat[w:]`. */
  function Take(dat: seq<byte>, w: nat): seq<byte>
  {
    if w <= |dat| then dat[..w] else dat
  }

  function Drop(dat: seq<byte>, w: nat): seq<byte>
  {
    if w <= |dat| then dat[w..] else []
  }

  /** `int.from_bytes(dat[off:off+w], 'little')` for each width in turn,
      `off` advancing by the width; past the end the slices are empty. */
  function Decode(ws: seq<nat>, dat: seq<byte>): (r: seq<int>)
    ensures |r| == |ws|
  {
    if |ws| == 0 then []
    else [FromLE(Take(dat, ws[0]))] + Decode(ws[1..], Drop(dat, ws[0]))
  }

  /** The `struct` serialiser: exactly one sample per channel, each in
      range, or `struct.error`. */
  function SaneSer(ws: seq<nat>, samps: seq<int>): (r: Result<seq<byte>>)
  {
    if |samps| != |ws| || !SamplesFit(ws, samps) then Err(StructError)
    else Ok(Encode(ws, samps))
  }

  /** The `struct` deserialiser: the data must be exactly one frame long. */
  function SaneDeser(ws: seq<nat>, dat: seq<byte>): (r: Result<seq<int>>)
  {
    if |dat| != Sum(ws) then Err(StructError) else Ok(Decode(ws, dat))
  }

  /** The byte-by-byte serialiser: `samps[i].to_bytes(ws[i], 'little')`
      for each channel in order; a missing sample is an `IndexError`, one
      that does not fit (negative or too large) an `OverflowError`, and
      samples past the last channel are ignored. */
  function InsaneSer(ws: seq<nat>, samps: seq<int>): (r: Result<seq<byte>>)
    decreases |ws|
  {
    if |ws| == 0 then Ok([])
    else if |samps| == 0 then Err(IndexError)
    else if !Fits(samps[0], ws[0]) then Err(OverflowError)
    else
      match InsaneSer(ws[1..], samps[1..])
      case Err(e) => Err(e)
      case Ok(rest) => Ok(LE(samps[0], ws[0]) + rest)
  }

  /** The byte-by-byte deserialiser never fails. */
  function InsaneDeser(ws: seq<nat>, dat: seq<byte>): (r: seq<int>)
    ensures |r| == |ws|
  {
    Decode(ws, dat)
  }

  /** `setup` picks the `struct` path when every width is sane. Both paths
      receive the frame's samples here; in the source the `struct` path takes
      them as separate arguments and the manual path as one sequence. */
  function Ser(ws: seq<nat>, samps: seq<int>): Result<seq<byte>>
  {
    if Sane(ws) then SaneSer(ws, samps) else InsaneSer(ws, samps)
  }

  function Deser(ws: seq<nat>, dat: seq<byte>): Result<seq<int>>
  {
    if Sane(ws) then SaneDeser(ws, dat) else Ok(InsaneDeser(ws, dat))
  }

  /** The byte-by-byte serialiser fails exactly when a channel has no
      sample or a sample that does not fit, and otherwise encodes the
      first `|ws|` samples. */
  lemma {:induction false} InsaneSerSpec(ws: seq<nat>, samps: seq<int>)
    decreases |ws|
    ensures InsaneSer(ws, samps).Ok? <==> |samps| >= |ws| && SamplesFit(ws, samps)
    ensures InsaneSer(ws, samps).Ok? ==> InsaneSer(ws, samps).value == Encode(ws, samps)
    ensures InsaneSer(ws, samps).Err? ==> InsaneSer(ws, samps).error in {IndexError, OverflowError}
  {
    if |ws| > 0 && |samps| > 0 && Fits(samps[0], ws[0]) {
      InsaneSerSpec(ws[1..], samps[1..]);
      if |samps| >= |ws| && SamplesFit(ws, samps) {
        assert SamplesFit(ws[1..], samps[1..]) by {
          forall i | 0 <= i < |ws| - 1 ensures Fits(samps[1..][i], ws[1..][i]) {
            assert Fits(samps[i + 1], ws[i + 1]);
          }
        }
      }
      if |samps[1..]| >= |ws[1..]| && SamplesFit(ws[1..], samps[1..]) {
        assert SamplesFit(ws, samps) by {
          forall i | 0 <= i < |ws| ensures Fits(samps[i], ws[i]) {
            if i > 0 {
              assert Fits(samps[1..][i - 1], ws[1..][i - 1]);
            }
          }
        }
      }
    }
  }

  /** Decoding an encoding gives the samples back. */
  lemma {:induction false} DecodeEncode(ws: seq<nat>, samps: seq<int>)
    requires |samps| == |ws| && SamplesFit(ws, samps)
    decreases |ws|
    ensures Decode(ws, Encode(ws, samps)) == samps
  {
    if |ws| > 0 {
      var head := LE(samps[0], ws[0]);
      var rest := Encode(ws[1..], samps[1..]);
      assert SamplesFit(ws[1..], samps[1..]) by {
        forall i | 0 <= i < |ws| - 1 ensures Fits(samps[1..][i], ws[1..][i]) {
          assert Fits(samps[i + 1], ws[i + 1]);
        }
      }
      DecodeEncode(ws[1..], samps[1..]);
      assert Take(head + rest, ws[0]) == head;
      assert Drop(head + rest, ws[0]) == rest;
      LeRoundTrip(samps[0], ws[0]);
    }
  }

  /** Encoding a decoded frame gives the bytes back. */
  lemma {:induction false} EncodeDecode(ws: seq<nat>, dat: seq<byte>)
    requires |dat| == Sum(ws)
    decreases |ws|
    ensures SamplesFit(ws, Decode(ws, dat))
    ensures Encode(ws, Decode(ws, dat)) == dat
  {
    if |ws| > 0 {
      var head, rest := dat[..ws[0]], dat[ws[0]..];
      EncodeDecode(ws[1..], rest);
      FromLEBound(head);
      FromLERoundTrip(head);
      var d := Decode(ws, dat);
      assert d == [FromLE(head)] + Decode(ws[1..], rest);
      FitsCons(ws, d);
      assert Encode(ws, d) == head + Encode(ws[1..], d[1..]);
      assert dat == head + rest;
    }
  }

  /** Samples fit their widths when the first one does and the rest do. */
  lemma FitsCons(ws: seq<nat>, d: seq<int>)
    requires |ws| > 0 && |d| == |ws|
    requires Fits(d[0], ws[0]) && SamplesFit(ws[1..], d[1..])
    ensures SamplesFit(ws, d)
  {
    forall i | 0 <= i < |ws| ensures Fits(d[i], ws[i]) {
      if i > 0 {
        assert Fits(d[1..][i - 1], ws[1..][i - 1]);
      }
    }
  }

  /** Both paths round-trip a frame whose samples fit: serialising and then
      deserialising gives the samples back. */
  lemma SerDeserRoundTrip(ws: seq<nat>, samps: seq<int>)
    requires |samps| == |ws| && SamplesFit(ws, samps)
    ensures Ser(ws, samps).Ok?
    ensures Deser(ws, Ser(ws, samps).value) == Ok(samps)
  {
    InsaneSerSpec(ws, samps);
    DecodeEncode(ws, samps);
  }

  /** Both paths round-trip one frame's bytes: deserialising and then
      serialising gives the bytes back. */
  lemma DeserSerRoundTrip(ws: seq<nat>, dat: seq<byte>)
    requires |dat| == Sum(ws)
    ensures Deser(ws, dat).Ok?
    ensures Ser(ws, Deser(ws, dat).value) == Ok(dat)
  {
    EncodeDecode(ws, dat);
    InsaneSerSpec(ws, Decode(ws, dat));
  }

  /** On sane widths the two paths agree wherever the `struct` path
      succeeds, and fail together on a frame of the right sample count. */
  lemma PathsAgree(ws: seq<nat>, samps: seq<int>, dat: seq<byte>)
    ensures SaneSer(ws, samps).Ok? ==> InsaneSer(ws, samps) == SaneSer(ws, samps)
    ensures |samps| == |ws| ==> (SaneSer(ws, samps).Ok? <==> InsaneSer(ws, samps).Ok?)
    ensures SaneDeser(ws, dat).Ok? ==> SaneDeser(ws, dat).value == InsaneDeser(ws, dat)
  {
    InsaneSerSpec(ws, samps);
  }

  /** The `struct` deserialiser rejects data of the wrong length, where the
      byte-by-byte one still answers. */
  lemma SaneDeserRejectsShort()
    ensures SaneDeser([2], [1]) == Err(StructError)
    ensures InsaneDeser([2], [1]) == [1]
  {
    assert Take([1], 2) == [1];
    assert FromLE([1]) == 1 + 256 * FromLE([]);
  }

  /** Each sample sits at the sum of the earlier widths. */
  lemma {:induction false} EncodeAt(ws: seq<nat>, samps: seq<int>, i: nat)
    requires |samps| >= |ws| && SamplesFit(ws, samps) && i < |ws|
    decreases i
    ensures Sum(ws[..i]) + ws[i] <= Sum(ws)
    ensures Encode(ws, samps)[Sum(ws[..i])..Sum(ws[..i]) + ws[i]] == LE(samps[i], ws[i])
  {
    assert SamplesFit(ws[1..], samps[1..]) by {
      forall j | 0 <= j < |ws| - 1 ensures Fits(samps[1..][j], ws[1..][j]) {
        assert Fits(samps[j + 1], ws[j + 1]);
      }
    }
    var head := LE(samps[0], ws[0]);
    var rest := Encode(ws[1..], samps[1..]);
    if i == 0 {
      assert ws[..0] == [];
    } else {
      EncodeAt(ws[1..], samps[1..], i - 1);
      assert ws[1..][..i - 1] == ws[1..i];
      assert ws[..i] == [ws[0]] + ws[1..i];
      assert Sum(ws[..i]) == ws[0] + Sum(ws[1..i]);
      var a := Sum(ws[1..i]);
      assert ws[1..][i - 1] == ws[i];
      assert Encode(ws, samps) == head + rest;
      SliceAfter(head, rest, a, ws[i]);
    }
  }

  /** A slice of `p + q` that starts past `p` is a slice of `q`. */
  lemma SliceAfter(p: seq<byte>, q: seq<byte>, a: nat, n: nat)
    requires a + n <= |q|
    ensures (p + q)[|p| + a..|p| + a + n] == q[a..a + n]
  {
    var pq := p + q;
    assert pq[|p|..] == q;
    assert pq[|p| + a..|p| + a + n] == pq[|p|..][a..a + n];
  }
}
