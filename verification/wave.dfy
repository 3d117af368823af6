/** The WIFFWAVE chunk of `wiff/wiffwave.py` at record level: the channel
    bitmap, the frame index bounds, the frame records and the INFO fields
    the chunk keeps in step (the file entry's frame range and the
    recording-wide frame count). */
module Wave {
  import opened Bytes
  import opened Errors
  import opened Py
  import opened Bits
  import opened FrameCodec
  import opened Structs
  import Info
  import Chunk

  // ---- initchunk

  /** The compression tag byte: `'0'` for none, `'Z'` or `'B'` for `z` or
      `b` in either case, `ValueError` for anything else. */
  function CompressionTag(compression: Option<string>): (r: Result<byte>)
    ensures r.Ok? <==> compression.None? || Lower(compression.value) in {"z", "b"}
    ensures r.Err? ==> r.error == ValueError
  {
    match compression
    case None => Ok('0' as int)
    case Some(c) =>
      if Lower(c) == "z" then Ok('Z' as int)
      else if Lower(c) == "b" then Ok('B' as int)
      else Err(ValueError)
  }

  /** The tag tells the three cases apart and ignores case. */
  lemma CompressionTags()
    ensures CompressionTag(None) == Ok(48)
    ensures CompressionTag(Some("z")) == Ok(90) && CompressionTag(Some("Z")) == Ok(90)
    ensures CompressionTag(Some("b")) == Ok(66) && CompressionTag(Some("B")) == Ok(66)
    ensures CompressionTag(Some("gz")) == Err(ValueError)
  {
    assert Lower("Z") == "z" && Lower("z") == "z";
    assert Lower("B") == "b" && Lower("b") == "b";
    assert Lower("gz") == "gz";
  }

  /** A chunk header as `initchunk` leaves it. */
  datatype ChunkInit = ChunkInit(magic: string, size: nat, attrs: seq<int>)

  /** `initchunk(compression, segmentid)`: one page, the tag in attribute
      byte 0 and the segment id as a little-endian u32 in bytes 4..8
      (`struct.error` when it does not fit). */
  function InitChunk(compression: Option<string>, segment: int): (r: Result<ChunkInit>)
    ensures r.Ok? ==> r.value.magic == "WIFFWAVE" && r.value.size == 4096
    ensures r.Ok? <==> CompressionTag(compression).Ok? && Fits(segment, 4)
  {
    var tag :- CompressionTag(compression);
    if !Fits(segment, 4) then Err(StructError)
    else Ok(ChunkInit("WIFFWAVE", 4096, [tag, 0, 0, 0] + LE(segment, 4)))
  }

  /** The attributes `initchunk` sets are a valid attribute field, and
      reading them back gives the tag in byte 0, zeros in bytes 1..4 and
      the segment id in bytes 4..8. */
  lemma InitChunkAttributes(compression: Option<string>, segment: int)
    requires InitChunk(compression, segment).Ok?
    ensures var a := InitChunk(compression, segment).value.attrs;
      && Chunk.AttributesField(a).Ok?
      && Chunk.Attributes(Chunk.AttributesField(a).value)[0] == CompressionTag(compression).value
      && Chunk.Attributes(Chunk.AttributesField(a).value)[1..4] == [0, 0, 0]
      && FromLE(Chunk.Attributes(Chunk.AttributesField(a).value)[4..8]) == segment
  {
    var a := InitChunk(compression, segment).value.attrs;
    var le := LE(segment, 4);
    assert forall i | 0 <= i < 8 :: 0 <= a[i] < 256 by {
      forall i | 0 <= i < 8 ensures 0 <= a[i] < 256 {
        if i >= 4 { assert a[i] == le[i - 4]; }
      }
    }
    Chunk.AttributesRoundTrip(a);
    assert a[4..8] == le;
    LeRoundTrip(segment, 4);
  }

  // ---- the block

  /** The WIFFWAVE body: the 32-byte channel bitmap, the frame range and
      the frame records by slot, with the record size `initheader` set. */
  datatype WaveBlock = WaveBlock(
    chunkSize: nat, channels: seq<byte>, fidxStart: nat, fidxEnd: nat,
    recordSize: nat, records: map<int, seq<byte>>)

  /** A wave chunk together with the INFO header of its recording and the
      name of the backing file that holds it. */
  datatype Segment = Segment(info: Info.InfoBlock, wave: WaveBlock, fname: string)

  /** The `channels` getter: the set bits of the first 32 bitmap bytes. */
  function Channels(w: WaveBlock): seq<nat>
  {
    SetIndices(FromBytes(if |w.channels| >= 32 then w.channels[..32] else w.channels))
  }

  /** `[self.wiff.channels[_].bit.val for _ in chans]`: an index past the
      INFO channel list is an `IndexError`. */
  function ChannelBits(chans: seq<nat>, recs: seq<Info.ChannelRecord>): (r: Result<seq<nat>>)
    ensures r.Ok? <==> forall i | 0 <= i < |chans| :: chans[i] < |recs|
    ensures r.Ok? ==> |r.value| == |chans| && forall i | 0 <= i < |chans| :: r.value[i] == recs[chans[i]].bit
    ensures r.Err? ==> r.error == IndexError
  {
    if forall i | 0 <= i < |chans| :: chans[i] < |recs| then
      Ok(seq(|chans|, i requires 0 <= i < |chans| && chans[i] < |recs| => recs[chans[i]].bit))
    else Err(IndexError)
  }

  /** The bit depths of the segment's active channels. */
  function SegmentBits(s: Segment): Result<seq<nat>>
  {
    ChannelBits(Channels(s.wave), s.info.channels)
  }

  /** `channel_sizes`: padded bit counts of the active channels. */
  function ChannelSizes(s: Segment): (r: Result<seq<nat>>)
    ensures r.Ok? <==> SegmentBits(s).Ok?
    ensures r.Ok? ==> r.value == PaddedBits(SegmentBits(s).value)
  {
    var bits :- SegmentBits(s);
    Ok(PaddedBits(bits))
  }

  /** Bytes before the frame records: the chunk header (`_s.offset -
      chunk.offset`) and the wave header (`lenplan(0, 0)`). */
  const FRAME_AREA_START: nat := 24 + WAVE_RECORDS

  lemma FrameAreaStart()
    ensures FRAME_AREA_START == Chunk.HEADER_LEN + WaveLenplan(0, 0)
  {
  }

  /** `frame_space`: how many whole frames fit after the two headers
      (floor division; a zero frame size is a `ZeroDivisionError`). */
  function FrameSpace(s: Segment): (r: Result<int>)
    ensures r.Ok? <==> SegmentBits(s).Ok? && FrameSize(SegmentBits(s).value) > 0
    ensures r.Ok? ==> var fsz := FrameSize(SegmentBits(s).value);
      r.value * fsz <= s.wave.chunkSize - FRAME_AREA_START < (r.value + 1) * fsz
  {
    var bits :- SegmentBits(s);
    var fsz := FrameSize(bits);
    if fsz == 0 then Err(ZeroDivision)
    else Ok((s.wave.chunkSize - FRAME_AREA_START) / fsz)
  }

  /** `frame_space_available`: the space less the frames already held. */
  function FrameSpaceAvailable(s: Segment): (r: Result<int>)
    ensures r.Ok? <==> FrameSpace(s).Ok?
    ensures r.Ok? ==> r.value == FrameSpace(s).value - (s.wave.fidxEnd - s.wave.fidxStart)
  {
    var space :- FrameSpace(s);
    Ok(space - (s.wave.fidxEnd - s.wave.fidxStart))
  }

  /** Whole pages holding `n` bytes (`divmod`, plus one for a partial page). */
  function PagesFor(n: int): int
  {
    if n % 4096 != 0 then n / 4096 + 1 else n / 4096
  }

  lemma PagesForBounds(n: int)
    ensures (PagesFor(n) - 1) * 4096 < n <= PagesFor(n) * 4096
  {
  }

  /** The `frame_space` setter: the same space is a no-op, a smaller one a
      `ValueError`; otherwise the chunk grows to the pages that hold `val`
      frames (`ResizeChunk`, whose checks apply). */
  function SetFrameSpace(s: Segment, val: int): (r: Result<Segment>)
    ensures r.Ok? ==> r.value == s.(wave := s.wave.(chunkSize := r.value.wave.chunkSize))
  {
    var cur :- FrameSpace(s);
    if cur == val then Ok(s)
    else if val < cur then Err(ValueError)
    else
      var newSize := PagesFor(val * FrameSize(SegmentBits(s).value)) * 4096;
      if newSize < 0 then Err(ValueError)
      else
        var size :- Chunk.ResizePlan(s.wave.chunkSize, newSize);
        Ok(s.(wave := s.wave.(chunkSize := size)))
  }

  /** A request above the current space gives the smallest whole number
      of pages that holds `val` frames, unless that is below the current
      size (`ValueError`); a request below is always refused. */
  lemma SetFrameSpaceSize(s: Segment, val: int)
    requires FrameSpace(s).Ok?
    ensures val < FrameSpace(s).value ==> SetFrameSpace(s, val) == Err(ValueError)
    ensures val > FrameSpace(s).value && SetFrameSpace(s, val).Ok? ==>
      var fsz := FrameSize(SegmentBits(s).value);
      var size := SetFrameSpace(s, val).value.wave.chunkSize;
      && size % 4096 == 0
      && val * fsz <= size < val * fsz + 4096
      && size >= s.wave.chunkSize
  {
    var fsz := FrameSize(SegmentBits(s).value);
    PagesForBounds(val * fsz);
  }

  /** The setter sizes the pages for the frames alone and forgets the 72
      header bytes: on a one-page chunk with one-byte frames, asking for
      4096 frames leaves the chunk as it is, with room for only 4024. */
  lemma SetFrameSpaceFallsShort(s: Segment)
    requires SegmentBits(s).Ok? && FrameSize(SegmentBits(s).value) == 1
    requires s.wave.chunkSize == 4096
    ensures FrameSpace(s) == Ok(4024)
    ensures SetFrameSpace(s, 4096) == Ok(s)
    ensures FrameSpace(SetFrameSpace(s, 4096).value) == Ok(4024)
  {
  }

  // ---- frame index setters

  /** The `fidx_start` setter: the wave header takes `v` (a u64), and the
      first INFO file entry named after this segment's file lowers its own
      `fidx_start` to `v` if that is smaller; no such entry is an
      `IndexError`. */
  function SetFidxStart(s: Segment, v: int): (r: Result<Segment>)
  {
    if !Fits(v, 8) then Err(StructError)
    else
      match Info.FindFile(s.info.files, s.fname, 0)
      case Err(_) => Err(IndexError)
      case Ok(k) =>
        var f := s.info.files[k];
        var files := if v < f.fidxStart then s.info.files[k := f.(fidxStart := v)] else s.info.files;
        Ok(Segment(s.info.(files := files), s.wave.(fidxStart := v), s.fname))
  }

  /** The `fidx_end` setter: the wave header and the first matching INFO
      file entry both take `v`. */
  function SetFidxEnd(s: Segment, v: int): (r: Result<Segment>)
  {
    if !Fits(v, 8) then Err(StructError)
    else
      match Info.FindFile(s.info.files, s.fname, 0)
      case Err(_) => Err(IndexError)
      case Ok(k) =>
        var f := s.info.files[k];
        Ok(Segment(s.info.(files := s.info.files[k := f.(fidxEnd := v)]), s.wave.(fidxEnd := v), s.fname))
  }

  /** The file entry an update goes to: the first one with the segment's
      file name. */
  predicate IsEntryOf(files: seq<Info.FileRecord>, fname: string, k: nat)
  {
    k < |files| && files[k].name == fname && forall j | 0 <= j < k :: files[j].name != fname
  }

  /** `fidx_start` fails exactly when the value is not a u64 or no entry
      has the name; otherwise the wave takes the value, the entry keeps
      the smaller of its start and the value, and nothing else changes. */
  lemma SetFidxStartSpec(s: Segment, v: int)
    ensures !Fits(v, 8) ==> SetFidxStart(s, v) == Err(StructError)
    ensures Fits(v, 8) && (forall j | 0 <= j < |s.info.files| :: s.info.files[j].name != s.fname) ==>
      SetFidxStart(s, v) == Err(IndexError)
    ensures SetFidxStart(s, v).Ok? ==>
      var r := SetFidxStart(s, v).value;
      && r.wave == s.wave.(fidxStart := v)
      && r.info == s.info.(files := r.info.files)
      && |r.info.files| == |s.info.files|
      && exists k: nat | IsEntryOf(s.info.files, s.fname, k) ::
           && r.info.files[k] == s.info.files[k].(fidxStart := if v < s.info.files[k].fidxStart then v else s.info.files[k].fidxStart)
           && forall j | 0 <= j < |s.info.files| && j != k :: r.info.files[j] == s.info.files[j]
  {
    Info.FindFileSpec(s.info.files, s.fname, 0);
  }

  /** `fidx_end` fails exactly when the value is not a u64 or no entry has
      the name; otherwise the wave and the entry both take the value and
      nothing else changes. */
  lemma SetFidxEndSpec(s: Segment, v: int)
    ensures !Fits(v, 8) ==> SetFidxEnd(s, v) == Err(StructError)
    ensures Fits(v, 8) && (forall j | 0 <= j < |s.info.files| :: s.info.files[j].name != s.fname) ==>
      SetFidxEnd(s, v) == Err(IndexError)
    ensures SetFidxEnd(s, v).Ok? ==>
      var r := SetFidxEnd(s, v).value;
      && r.wave == s.wave.(fidxEnd := v)
      && r.info == s.info.(files := r.info.files)
      && |r.info.files| == |s.info.files|
      && exists k: nat | IsEntryOf(s.info.files, s.fname, k) ::
           && r.info.files[k] == s.info.files[k].(fidxEnd := v)
           && forall j | 0 <= j < |s.info.files| && j != k :: r.info.files[j] == s.info.files[j]
  {
    Info.FindFileSpec(s.info.files, s.fname, 0);
  }

  // ---- channels setter and initheader

  /** The `channels` setter: bytes (or a tuple of byte values) are stored
      over the 32 bitmap bytes; anything else is a `TypeError`, and a value
      of another length is refused like an mmap slice assignment
      (`IndexError`). */
  function SetChannels(w: WaveBlock, v: Value): (r: Result<WaveBlock>)
    ensures r.Ok? ==> r.value == w.(channels := r.value.channels) && |r.value.channels| == 32
    ensures v.Bytes? && |v.bs| == 32 ==> r == Ok(w.(channels := v.bs))
    ensures !v.Bytes? && !v.Tuple? ==> r == Err(TypeError)
  {
    match v
    case Bytes(bs) => if |bs| == 32 then Ok(w.(channels := bs)) else Err(IndexError)
    case Tuple(items) =>
      if !forall i | 0 <= i < |items| :: items[i].Int? && 0 <= items[i].i < 256 then Err(TypeError)
      else if |items| != 32 then Err(IndexError)
      else Ok(w.(channels := seq(32, i requires 0 <= i < 32 => items[i].i)))
    case _ => Err(TypeError)
  }

  /** A channel as `initheader` accepts it: an index into the INFO channel
      list, a channel record, or anything else (a `TypeError`). */
  datatype ChannelRef = ByIndex(i: int) | ByRecord(rec: Info.ChannelRecord) | Unsupported

  /** The channel numbers and bit depths `initheader` collects, in order;
      an index is a Python list index, so `-n <= i < n`. */
  function Resolve(refs: seq<ChannelRef>, recs: seq<Info.ChannelRecord>): (r: Result<(seq<int>, seq<nat>)>)
    ensures r.Ok? ==> |r.value.0| == |r.value.1| == |refs|
  {
    if |refs| == 0 then Ok(([], []))
    else
      var (num, bit) :- match refs[0]
        case ByIndex(i) =>
          if -|recs| <= i < |recs| then Ok((i, recs[if i < 0 then i + |recs| else i].bit)) else Err(IndexError)
        case ByRecord(rec) => Ok((rec.index as int, rec.bit))
        case Unsupported => Err(TypeError);
      var (nums, bits) :- Resolve(refs[1..], recs);
      Ok(([num] + nums, [bit] + bits))
  }

  /** Plain in-range indices resolve to themselves and their channels' bit
      depths. */
  lemma {:induction false} ResolveIndices(refs: seq<ChannelRef>, recs: seq<Info.ChannelRecord>)
    requires forall j | 0 <= j < |refs| :: refs[j].ByIndex? && 0 <= refs[j].i < |recs|
    decreases |refs|
    ensures Resolve(refs, recs).Ok?
    ensures forall j | 0 <= j < |refs| ::
      Resolve(refs, recs).value.0[j] == refs[j].i && Resolve(refs, recs).value.1[j] == recs[refs[j].i].bit
  {
    if |refs| > 0 {
      ResolveIndices(refs[1..], recs);
      var rest := Resolve(refs[1..], recs).value;
      forall j | 1 <= j < |refs|
        ensures Resolve(refs, recs).value.0[j] == refs[j].i && Resolve(refs, recs).value.1[j] == recs[refs[j].i].bit
      {
        assert refs[1..][j - 1] == refs[j];
      }
    }
  }

  /** `initheader(channels, fidx_start, fidx_end)`: resolve the channels,
      store their bitmap, set the frame range through the two setters and
      make the record size `frame_size` of the channels' bit depths. */
  function InitHeader(s: Segment, refs: seq<ChannelRef>, fidxStart: int, fidxEnd: int): (r: Result<Segment>)
  {
    var (nums, bits) :- Resolve(refs, s.info.channels);
    var bitmap :- ChannelBitmap(nums);
    var w :- SetChannels(s.wave, Bytes(bitmap));
    var s1 :- SetFidxStart(s.(wave := w), fidxStart);
    var s2 :- SetFidxEnd(s1, fidxEnd);
    var s3 := s2.(wave := s2.wave.(recordSize := FrameSize(bits)));
    // `setup()` looks the stored channels up again
    var _ :- SegmentBits(s3);
    Ok(s3)
  }

  /** After `initheader` with channel indices in `0..255` and within the
      INFO list, the bitmap reads back as exactly those channels, the
      frame range is the one given and the record size is the padded
      frame size of their bit depths. */
  lemma InitHeaderChannels(s: Segment, refs: seq<ChannelRef>, fidxStart: int, fidxEnd: int)
    requires forall j | 0 <= j < |refs| :: refs[j].ByIndex? && 0 <= refs[j].i < |s.info.channels| && refs[j].i < 256
    requires InitHeader(s, refs, fidxStart, fidxEnd).Ok?
    ensures var r := InitHeader(s, refs, fidxStart, fidxEnd).value;
      && (forall x :: x in Channels(r.wave) <==> exists j | 0 <= j < |refs| :: refs[j].i == x)
      && r.wave.fidxStart == fidxStart && r.wave.fidxEnd == fidxEnd
      && r.wave.recordSize == FrameSize(seq(|refs|, j requires 0 <= j < |refs| => s.info.channels[refs[j].i].bit))
  {
    ResolveIndices(refs, s.info.channels);
    var (nums, bits) := Resolve(refs, s.info.channels).value;
    ChannelBitmapRoundTrip(nums);
    var bitmap := ChannelBitmap(nums).value;
    var w := SetChannels(s.wave, Bytes(bitmap)).value;
    assert w.channels[..32] == bitmap;
    var s1 := SetFidxStart(s.(wave := w), fidxStart).value;
    SetFidxStartSpec(s.(wave := w), fidxStart);
    SetFidxEndSpec(s1, fidxEnd);
    assert bits == seq(|refs|, j requires 0 <= j < |refs| => s.info.channels[refs[j].i].bit);
    forall x ensures x in Channels(InitHeader(s, refs, fidxStart, fidxEnd).value.wave) <==> x in nums {
    }
    forall x ensures x in nums <==> exists j | 0 <= j < |refs| :: refs[j].i == x {
      if x in nums {
        var j :| 0 <= j < |nums| && nums[j] == x;
        assert refs[j].i == x;
      }
    }
  }

  // ---- add_frames

  function Flatten(samps: seq<seq<byte>>): seq<byte>
  {
    if |samps| == 0 then [] else samps[0] + Flatten(samps[1..])
  }

  /** Every frame has one sample per channel, each `padded / 8` bytes
      long for its channel's padded bit count. */
  predicate FramesMatch(padded: seq<nat>, frames: seq<seq<seq<byte>>>)
  {
    forall j | 0 <= j < |frames| ::
      && |frames[j]| == |padded|
      && forall i | 0 <= i < |padded| :: padded[i] == |frames[j][i]| * 8
  }

  /** The checks `add_frames` runs before it writes anything, in order:
      room for the frames (`NeedResizeException`), the sample count of
      every frame, then the byte length of every sample (`ValueError`). */
  function CheckFrames(s: Segment, frames: seq<seq<seq<byte>>>): (r: Result<seq<nat>>)
    ensures r.Ok? ==> r == ChannelSizes(s)
  {
    var avail :- FrameSpaceAvailable(s);
    if avail < |frames| then Err(NeedResize)
    else
      var chans := Channels(s.wave);
      if exists j | 0 <= j < |frames| :: |frames[j]| != |chans| then Err(ValueError)
      else
        var padded := PaddedBits(SegmentBits(s).value);
        if !FramesMatch(padded, frames) then Err(ValueError) else Ok(padded)
  }

  /** Write frame `i` into slot `delta + i` for every frame. */
  function WriteFrames(records: map<int, seq<byte>>, delta: int, frames: seq<seq<seq<byte>>>): (r: map<int, seq<byte>>)
    decreases |frames|
  {
    if |frames| == 0 then records
    else WriteFrames(records[delta := Flatten(frames[0])], delta + 1, frames[1..])
  }

  /** `add_frames(*frames)`: after the checks, frame `i` goes to slot
      `(fidx_end - fidx_start) + i`; when the recording had no frames yet
      `fidx_start` is set to 0; `fidx_end` becomes the old frame count plus
      the number of frames, and so does the recording's frame count. */
  function AddFrames(s: Segment, frames: seq<seq<seq<byte>>>): (r: Result<Segment>)
  {
    var _ :- CheckFrames(s, frames);
    var delta := s.wave.fidxEnd - s.wave.fidxStart;
    var frameNum := s.info.numFrames;
    Commit(s.(wave := s.wave.(records := WriteFrames(s.wave.records, delta, frames))), |frames|)
  }

  /** The bookkeeping after the records are written: `fidx_start` when the
      recording was empty, then `fidx_end`, then the frame count. */
  function Commit(s: Segment, n: nat): (r: Result<Segment>)
  {
    var frameNum := s.info.numFrames;
    var s2 :- if frameNum == 0 then SetFidxStart(s, frameNum) else Ok(s);
    var s3 :- SetFidxEnd(s2, frameNum + n);
    if !Fits(frameNum + n, 8) then Err(StructError)
    else Ok(s3.(info := s3.info.(numFrames := frameNum + n)))
  }

  lemma CommitSpec(s: Segment, n: nat)
    requires Commit(s, n).Ok?
    ensures var r := Commit(s, n).value;
      var total := s.info.numFrames + n;
      && r.info.numFrames == total
      && r.wave == s.wave.(fidxStart := r.wave.fidxStart, fidxEnd := total)
      && r.wave.fidxStart == (if s.info.numFrames == 0 then 0 else s.wave.fidxStart)
      && exists k: nat :: IsEntryOf(s.info.files, s.fname, k) && r.info.files[k].fidxEnd == total
  {
    var frameNum := s.info.numFrames;
    var s2 := if frameNum == 0 then SetFidxStart(s, frameNum).value else s;
    if frameNum == 0 {
      SetFidxStartSpec(s, frameNum);
    }
    assert |s2.info.files| == |s.info.files| && forall j | 0 <= j < |s.info.files| :: s2.info.files[j].name == s.info.files[j].name;
    SetFidxEndSpec(s2, frameNum + n);
    var k: nat :| IsEntryOf(s2.info.files, s2.fname, k) && SetFidxEnd(s2, frameNum + n).value.info.files[k].fidxEnd == frameNum + n;
    assert IsEntryOf(s.info.files, s.fname, k);
  }

  /** Not enough room is refused before anything else is looked at. */
  lemma AddFramesNeedsRoom(s: Segment, frames: seq<seq<seq<byte>>>)
    requires FrameSpaceAvailable(s).Ok? && FrameSpaceAvailable(s).value < |frames|
    ensures AddFrames(s, frames) == Err(NeedResize)
  {
  }

  /** With room for the frames, `add_frames` fails with `ValueError`
      exactly when some frame has the wrong number of samples or some
      sample the wrong byte length. */
  lemma AddFramesValidates(s: Segment, frames: seq<seq<seq<byte>>>)
    requires FrameSpaceAvailable(s).Ok? && FrameSpaceAvailable(s).value >= |frames|
    ensures CheckFrames(s, frames).Err? <==> !FramesMatch(ChannelSizes(s).value, frames)
    ensures CheckFrames(s, frames).Err? ==> CheckFrames(s, frames).error == ValueError
    ensures AddFrames(s, frames).Err? && AddFrames(s, frames).error == ValueError ==>
      !FramesMatch(ChannelSizes(s).value, frames)
  {
    var chans := Channels(s.wave);
    assert |ChannelSizes(s).value| == |chans|;
  }

  lemma {:induction false} WriteFramesAt(records: map<int, seq<byte>>, delta: int, frames: seq<seq<seq<byte>>>)
    decreases |frames|
    ensures forall x | delta <= x < delta + |frames| ::
      x in WriteFrames(records, delta, frames) && WriteFrames(records, delta, frames)[x] == Flatten(frames[x - delta])
    ensures forall x | x in records && !(delta <= x < delta + |frames|) ::
      x in WriteFrames(records, delta, frames) && WriteFrames(records, delta, frames)[x] == records[x]
  {
    if |frames| > 0 {
      var rec1 := records[delta := Flatten(frames[0])];
      WriteFramesAt(rec1, delta + 1, frames[1..]);
      var r := WriteFrames(rec1, delta + 1, frames[1..]);
      assert r == WriteFrames(records, delta, frames);
      forall x | delta <= x < delta + |frames| ensures x in r && r[x] == Flatten(frames[x - delta]) {
        if x == delta {
          assert delta in rec1;
        } else {
          assert frames[1..][x - (delta + 1)] == frames[x - delta];
        }
      }
    }
  }

  /** Frame `i` lands in slot `(fidx_end - fidx_start) + i`, and the other
      slots keep what they held. */
  lemma AddFramesSlots(s: Segment, frames: seq<seq<seq<byte>>>)
    requires AddFrames(s, frames).Ok?
    ensures var r := AddFrames(s, frames).value;
      var delta := s.wave.fidxEnd - s.wave.fidxStart;
      && (forall i | 0 <= i < |frames| :: delta + i in r.wave.records && r.wave.records[delta + i] == Flatten(frames[i]))
      && (forall x | x in s.wave.records && !(delta <= x < delta + |frames|) ::
            x in r.wave.records && r.wave.records[x] == s.wave.records[x])
  {
    var delta := s.wave.fidxEnd - s.wave.fidxStart;
    WriteFramesAt(s.wave.records, delta, frames);
    CommitSpec(s.(wave := s.wave.(records := WriteFrames(s.wave.records, delta, frames))), |frames|);
    var r := AddFrames(s, frames).value;
    forall i | 0 <= i < |frames| ensures delta + i in r.wave.records && r.wave.records[delta + i] == Flatten(frames[i]) {
      assert (delta + i) - delta == i;
    }
  }

  /** After `add_frames` of `n` frames the recording counts `n` more
      frames, `fidx_end` is that count, `fidx_start` is 0 if the recording
      was empty and unchanged otherwise, the file entry's `fidx_end` is the
      new count too, and the channels and record size stay. */
  lemma AddFramesCounters(s: Segment, frames: seq<seq<seq<byte>>>)
    requires AddFrames(s, frames).Ok?
    ensures var r := AddFrames(s, frames).value;
      var n := s.info.numFrames + |frames|;
      && r.info.numFrames == n
      && r.wave.fidxEnd == n
      && r.wave.fidxStart == (if s.info.numFrames == 0 then 0 else s.wave.fidxStart)
      && (r.wave.channels, r.wave.recordSize, r.wave.chunkSize) == (s.wave.channels, s.wave.recordSize, s.wave.chunkSize)
      && exists k: nat :: IsEntryOf(s.info.files, s.fname, k) && r.info.files[k].fidxEnd == n
  {
    var delta := s.wave.fidxEnd - s.wave.fidxStart;
    CommitSpec(s.(wave := s.wave.(records := WriteFrames(s.wave.records, delta, frames))), |frames|);
  }

  lemma {:induction false} DecodeFlatten(ws: seq<nat>, samps: seq<seq<byte>>)
    requires |samps| == |ws| && forall c | 0 <= c < |ws| :: |samps[c]| == ws[c]
    decreases |ws|
    ensures |Flatten(samps)| == Sum(ws)
    ensures Decode(ws, Flatten(samps)) == seq(|ws|, c requires 0 <= c < |ws| => FromLE(samps[c]))
  {
    if |ws| > 0 {
      DecodeFlatten(ws[1..], samps[1..]);
      assert Take(Flatten(samps), ws[0]) == samps[0];
      assert Drop(Flatten(samps), ws[0]) == Flatten(samps[1..]);
    }
  }

  /** A frame `add_frames` stored reads back through the codec as the
      little-endian values of its samples, when every padded bit count is
      a whole number of bytes (so `setup`'s widths are the sample lengths). */
  lemma AddedFrameDecodes(s: Segment, frames: seq<seq<seq<byte>>>, i: nat)
    requires AddFrames(s, frames).Ok? && i < |frames|
    ensures s.wave.fidxEnd - s.wave.fidxStart + i in AddFrames(s, frames).value.wave.records
    ensures var bits := SegmentBits(s).value;
      var rec := AddFrames(s, frames).value.wave.records[s.wave.fidxEnd - s.wave.fidxStart + i];
      && |rec| == Sum(Widths(bits))
      && Deser(Widths(bits), rec).Ok?
      && Deser(Widths(bits), rec).value == seq(|bits|, c requires 0 <= c < |bits| => FromLE(frames[i][c]))
  {
    AddFramesSlots(s, frames);
    var bits := SegmentBits(s).value;
    var padded := PaddedBits(bits);
    assert FramesMatch(padded, frames);
    var ws := Widths(bits);
    assert forall c | 0 <= c < |ws| :: |frames[i][c]| == ws[c] by {
      forall c | 0 <= c < |ws| ensures |frames[i][c]| == ws[c] {
        assert padded[c] == |frames[i][c]| * 8;
      }
    }
    DecodeFlatten(ws, frames[i]);
  }
}
