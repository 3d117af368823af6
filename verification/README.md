# WIFF chunk engine in Dafny

WIFF (Waveform Interchange File Format) stores a recording as a file of
chunks. Each chunk is a 24-byte header (8-byte magic, little-endian u64
size, 8 attribute bytes) followed by a body, and every chunk size is a
whole number of 4096-byte pages. The chunk kinds are:

- `WIFFINFO`: the recording header, holding the channels and the file table.
- `WIFFWAVE`: a segment of frames.
- `WIFFANNO`: annotations.
- `WIFFMETA`: meta values.

This project models the on-disk engine beneath those chunks and proves
properties of the model:

- `Util` models the page-sized backing file (`_filewrap`). It starts as
  one zero page and can only grow. A slice write past its end raises
  `NeedResizeException`. It also has `twotuplecheck`.
- `Chunk` models the header codec, `data_offset`, the attribute field,
  chunk discovery (`FindChunks`, which decodes each magic as UTF-8) and the
  page-relocating `ResizeChunk`.
  `ResizeChunk` is a method whose two loops carry invariants: the
  descending page copy and the blanking of the vacated pages.
- `Bits` models the `bitfield` class. It packs bits into bytes, least
  significant bit first, and is used for the 256-channel presence bitmap.
- `Structs` models the record layouts as field-offset tables, the
  `lenplan` size functions, and the `LEVEL`/`TYPE` enums with their
  string conversions.
- `JumpTable` models the jump table as an abstract list of `(start, end)`
  pairs. Each new pair starts where the previous one ended.
- `Info` models the INFO header: its construction with strings packed
  back to back, the channel table, the fixed-length string setters, file
  lookup, and file append with one-page growth.
- `FrameCodec` models the channel byte width and the two frame-size
  formulas. It also models the two serialise/deserialise paths `setup`
  builds: the `struct` ("sane") path and the manual ("insane") path. Both
  are modelled as functions of the sample sequence, each called in its own
  convention (see `FrameCodec.Ser` under "## Left out").
- `Wave` models the WAVE chunk: `initchunk` attributes, the `channels`,
  `fidx_start` and `fidx_end` setters, `initheader`, `frame_space` and
  its setter, `frame_space_available`, and `add_frames`.
- `Anno` models the ANNO chunk: `initchunk`, `initheader`,
  `add_annotation` and the three resize helpers.
- `Meta` models the META chunk: `initchunk`, `initheader`, `guess_type`,
  and the argument normalisation and length planning of `add_meta`.

Python exceptions become an `Errors.Error` value in a `Result`. An
operation that fails returns no new state; writes made before a late
exception are not modelled. Python values that the code dispatches on
(`isinstance`) are the `Py.Value` datatype. Integers are unbounded, and
every fixed-width field is guarded by an explicit `Fits(v, width)` check
that models `struct.error`.

Record-level chunks (INFO, WAVE, ANNO, META) are datatypes holding the
header fields, the jump table and the decoded records. They are not byte
images. The byte level (the store, chunk headers, `ResizeChunk`, bit
packing, the frame codec and marker packing) works on `seq<byte>`.

Where the code departs from what its names, comments and docstrings suggest, the model follows the code:

- **Wave `lenplan`.** `wave_struct.lenplan(record_size, num_records)` returns
  48 plus their sum, although the docstring describes `records` as a blob of
  `num_records` records of `record_size` bytes each
  (`Structs.WaveLenplanIsNotRecordArea`).
- **Channel byte width.** It is `(bits + bits % 8) // 8`, which is not the
  number of whole bytes that hold `bits` bits: 9 bits give 1 byte and 3 bits
  give 0 (`FrameCodec.ChannelWidthCeil`).
- **Two frame sizes.** `setup` sums the per-channel widths, while
  `initheader` and `frame_size` floor the sum of the padded bit counts.
  The two differ for two 10-bit channels (`FrameCodec.FrameSizesDiffer`).
- **`frame_space` setter.** Its docstring promises room for at least `val`
  frames, rounded up to a whole page. It sizes the new pages for the frames
  alone, while the getter first subtracts the 24-byte chunk header and the
  48-byte WAVE header, so the result can hold fewer frames
  (`Wave.SetFrameSpaceFallsShort`).
- **Byte counts versus character counts.** The channel-table entries and
  the annotation comment entry are planned in UTF-8 bytes, while the
  record offsets count characters. The two agree only for ASCII text
  (`Info.ChannelEntryMatchesRecord`, `Anno.CommentEndMatchesEntry`).
- **`type_from_string` is case-sensitive.** It looks the name up without
  `upper()`, unlike `level_from_string` (`Structs.TypeStringRoundTrip`).
- **Meta record overlap.** The meta record's level field (u8 at 7)
  overlaps the u16 at 6 (`Structs.MetaFieldsOverlap`).
- **`guess_type` and `bool`.** A scalar `bool` passes the `int` check and
  is classified INT8. In a list, a bool and an int are different types,
  so the list is a `TypeError` (`Meta.GuessBool`).
- **Scalar `add_meta`.** `add_meta` with a scalar int calls `tuple()` on
  it and fails (`Meta.AddMetaScalarInt`).

## Model

| member | source | states |
|---|---|---|
| Util.Create | wiff/util.py:28-33 | a new backing file is exactly one page of zero bytes |
| Util.Resize | wiff/util.py:45-48 | resizing gives the requested size, keeps the common prefix and zero-fills any growth |
| Util.ResizeAdd | wiff/util.py:49-51 | growing by `d` succeeds iff the result is non-negative; the new size is old + `d` and the old bytes stay |
| Util.ResizeAddKeepsContent | wiff/util.py:45-51 | after growing by `d`, the first `size` bytes are the old content and the next `d` bytes are zero |
| Util.Read | wiff/util.py:53-57 | an in-range slice read returns exactly those bytes of the file |
| Util.ReadByte | wiff/util.py:53-57 | an index read succeeds iff the index is below the size, and returns that byte |
| Util.WriteSlice | wiff/util.py:59-72 | a slice write whose stop passes the size raises NeedResize; a wrong-length value is refused; a successful write changes exactly the slice and keeps the size |
| Util.WriteByte | wiff/util.py:59-72 | an index write with `k > size` raises NeedResize; `k == size` passes the guard but fails in the mapping; otherwise exactly byte `k` changes |
| Util.WriteThenRead | wiff/util.py:53-72 | after a successful slice write, reading the slice returns the written bytes, and the bytes before and after are unchanged |
| Util.TwoTupleCheck | wiff/util.py:9-19 | a 2-tuple of ints becomes the interval with those ends; any other tuple is ValueError; an interval is returned unchanged; anything else is TypeError |
| Chunk.EncodeHeader | wiff/structs.py:21-41 | the header is 24 bytes: magic at 0..8, size as LE u64 at 8..16, attributes at 16..24 |
| Chunk.DecodeHeader | wiff/structs.py:21-41 | any 24 bytes decode to a valid header; fewer fail |
| Chunk.HeaderRoundTrip | wiff/structs.py:21-41 | decoding an encoded header gives it back |
| Chunk.HeaderBytesRoundTrip | wiff/structs.py:21-41 | encoding a decoded 24-byte header gives the same bytes back |
| Chunk.DataOffset | wiff/wiffchunk.py:21-34 | the body starts 24 bytes after the header offset |
| Chunk.AttributesField | wiff/wiffchunk.py:40-41 | setting attributes succeeds iff there are 8 values, each in 0..255, and yields a u64 |
| Chunk.Attributes | wiff/wiffchunk.py:37-38 | the getter unpacks the u64 into 8 bytes whose LE value is the field |
| Chunk.AttributesRoundTrip | wiff/wiffchunk.py:36-41 | attributes read back after a set are the values set |
| Chunk.AttributesFieldRoundTrip | wiff/wiffchunk.py:36-41 | setting the attributes just read stores the same field |
| Chunk.FindChunksWalk | wiff/wiffchunk.py:44-76 | the chunks start at the walk offset and each next one starts at the previous offset plus its size; each magic is the 8 header bytes and decodes as UTF-8; the data offset is the header offset + 24; every size is nonzero and is the header's size field; the walk ends at or past the file end, and the result is empty only at the end |
| Chunk.FindChunksRejectsZeroSize | wiff/wiffchunk.py:53-63 | a header whose magic decodes and whose size is 0 is ValueError |
| Chunk.FindChunksRejectsBadMagic | wiff/wiffchunk.py:53-56 | magic bytes (up to 8, fewer at the end of the file) that are not UTF-8 are UnicodeDecodeError, before the size is read |
| Chunk.FindChunksRejectsFF | wiff/wiffchunk.py:53-56 | a file starting with byte 0xFF is UnicodeDecodeError whatever its size field holds |
| Chunk.FindChunksOfLayout | wiff/wiffchunk.py:44-76 | a file laid out from headers each at least 24 bytes long, with UTF-8 magics, is discovered as exactly those chunks at offsets 0, s0, s0+s1, … |
| Py.Utf8EncodeValid | wiff/structs.py:62-63 | `s.encode('utf8')` is well-formed UTF-8 of exactly `Utf8Len(s)` bytes, so whatever the writer encodes the decoder accepts |
| Py.Utf8ValidAscii | wiff/wiffchunk.py:55 | bytes below 0x80 always decode as UTF-8; a leading 0xFF byte never does |
| Chunk.ResizePlan | wiff/wiffchunk.py:86-93 | a new size is accepted iff it is page-aligned and not smaller; an equal size is a no-op; other sizes are ValueError |
| Chunk.MovePages | wiff/wiffchunk.py:113-122 | the descending page copy moves every page from the chunk end to the old file end forward by `delta`, reading each source page before it is overwritten |
| Chunk.BlankPages | wiff/wiffchunk.py:127-130 | the blanking loop zeroes exactly the `count` pages from `first` when they lie in the file, and is NeedResize when the last one ends past it |
| Chunk.ShiftAndBlank | wiff/wiffchunk.py:110-130 | growth, the page move (skipped for the last chunk) and the blanking together give the shifted file with the vacated pages zeroed, or NeedResize when the blank pages do not fit the grown file |
| Chunk.BlankFitsInside | wiff/wiffchunk.py:110-130 | a chunk that ends inside the file always has room for its blank pages |
| Chunk.BlankPastEnd | wiff/wiffchunk.py:110-130 | a 4096-byte file whose chunk claims 8192 bytes has no room to grow it to 12288, while a chunk that ends at 4096 has |
| Chunk.ResizeChunk | wiff/wiffchunk.py:78-133 | an off-grid or smaller size is ValueError; an equal size returns the store unchanged; a larger size is NeedResize when the blank pages run past the grown file (a chunk claiming more than the file holds), else gives the relocated file, or a struct error when the size does not fit a u64 |
| Chunk.RelocatedLayout | wiff/wiffchunk.py:99-133 | after growing a page-aligned chunk: the file grows by `delta`; the size field reads the new size; bytes before the old end are unchanged apart from the size field; the new pages are zero; every later byte reappears shifted by `delta` |
| Chunk.RelocatedAt | wiff/wiffchunk.py:99-133 | the same facts, stated byte by byte for every position of the new file |
| Bits.SetItem | wiff/bits.py:18-23 | setting index `k >= len` extends with zeros to `k+1`; only bit `k` changes; a negative index counts from the end and is IndexError below `-len` |
| Bits.AssignNonNegative | wiff/bits.py:37-49 | `set`/`clear` with non-negative indices give every listed index the value, leave the other bits alone (new ones zero), and grow only to one past a listed index |
| Bits.SetClearPartition | wiff/bits.py:51-61 | `set_indices` and `clear_indices` are ascending, hold exactly the nonzero and the zero positions, and partition `range(len)` |
| Bits.BitsToByteWeighted | wiff/bits.py:82-93 | `bitstobytes` is the sum of `b_i * 2^i`, with index 0 least significant |
| Bits.BytesToBits | wiff/bits.py:95-110 | `bytestobits` yields 8 bits per byte, each byte least significant bit first |
| Bits.PackGroupsRoundTrip | wiff/bits.py:70-93 | unpacking the packed bytes gives the normalised bits back |
| Bits.ToBytesRoundTrip | wiff/bits.py:63-79 | `to_bytes` emits `ceil(len/8)` bytes, and `from_bytes` of them gives the bits normalised to 0/1, zero-padded to a byte boundary |
| Bits.ToBytesKeepsSetIndices | wiff/bits.py:63-79 | `from_bytes(to_bytes(b))` has the same set indices as `b` |
| Bits.FromBytesRoundTrip | wiff/bits.py:63-79 | `to_bytes(from_bytes(bs)) == bs` |
| Bits.ChannelBitmapRoundTrip | wiff/wiffwave.py:126-132 | the channel bitmap has 32 bytes iff every channel is below 256, and then its set indices are exactly the channels |
| Structs.TilesDisjoint | wiff/structs.py:21-41 | fields that tile a record are pairwise disjoint and inside it |
| Structs.ChunkFields | wiff/structs.py:33-37 | the chunk header fields tile 24 bytes |
| Structs.ChannelFields | wiff/structs.py:47-57 | the channel fields tile its 10 fixed bytes at the named offsets |
| Structs.TextsLen | wiff/structs.py:59-70 | the summed byte lengths exist iff every value is str or bytes; otherwise TypeError |
| Structs.ChannelLenplan | wiff/structs.py:59-70 | a channel record is 10 plus the byte lengths of name, unit and comment; a non-text argument is TypeError |
| Structs.FileFields | wiff/structs.py:76-85 | the file fields tile 37 bytes, with `aidx_end` as the last u64 ending at 37 |
| Structs.FileLenplan | wiff/structs.py:87-98 | a file record is 37 plus the byte length of its name; defined iff the name is text |
| Structs.InfoFields | wiff/structs.py:106-125 | the INFO fields tile its 44 fixed bytes, with `num_metas` last |
| Structs.InfoLenplan | wiff/structs.py:128-150 | the INFO plan is defined iff every string, channel and file argument is text; it is 44 plus the string lengths plus the channel and file totals, and at least 44 plus 4+10 per channel plus 4+37 per file |
| Structs.ChannelsLenSnoc | wiff/structs.py:141-143 | one more channel adds exactly its 4-byte entry and its channel lenplan, and fails iff that lenplan does |
| Structs.FilesLenSnoc | wiff/structs.py:145-148 | one more file adds exactly its 4-byte entry and its file lenplan, and fails iff that lenplan does |
| Structs.InfoLenplanNoEntries | wiff/structs.py:128-139 | with empty strings and no channels or files the plan is exactly 44, where the INFO header's strings start |
| Structs.InfoLenplanAddChannel | wiff/structs.py:128-150 | planning one more channel adds exactly 4 plus that channel's lenplan to the INFO plan |
| Structs.InfoLenplanAddFile | wiff/structs.py:128-150 | planning one more file adds exactly 4 plus that file's lenplan to the INFO plan |
| Structs.ChannelsLenBound | wiff/structs.py:128-150 | each channel adds at least its 4-byte entry and 10 fixed bytes |
| Structs.WaveFields | wiff/structs.py:156-168 | the 32-byte bitmap, `fidx_start`@32 and `fidx_end`@40 tile the 48 bytes before the records |
| Structs.WaveLenplanIsNotRecordArea | wiff/structs.py:170-172 | the wave plan equals 48 + record area only when size + count equals size × count; (2, 3) gives 53, not 54 |
| Structs.AnnCFields | wiff/structs.py:174-192 | a comment annotation extends the 17-byte common prefix with two u16 comment bounds |
| Structs.AnnDFields | wiff/structs.py:226-244 | a marker-value annotation extends the marker layout with a u64 value, 29 bytes in all |
| Structs.AnnLenplan | wiff/structs.py:193-278 | `'\0'` plans 17, C 21 + comment length (KeyError without one), M 21, D 29; any other type is ValueError |
| Structs.AnnosFields | wiff/structs.py:280-304 | the ANNO header fields tile 38 bytes, with `index_annotations` at 36 |
| Structs.MetaStrsLenplan | wiff/structs.py:406-411 | a string list plans 2 + 4 per string + the string lengths |
| Structs.MetaDataLenplan | wiff/structs.py:329-439 | a numeric meta plans 2 + width × count for types 1..6; outside 0..6 it is ValueError |
| Structs.MetaFieldsOverlap | wiff/structs.py:476-485 | the meta fields do not tile: the level u8 at 7 lies inside the u16 at 6 |
| Structs.MetaLenplan | wiff/structs.py:486-493 | a meta record is 16 + the key length + its data plan, defined iff both are |
| Structs.MetasFields | wiff/structs.py:495-504 | the META header fields tile 6 bytes |
| Structs.LevelOf | wiff/structs.py:506-513 | a level number converts iff it is 0..5, to the level with that value |
| Structs.LevelNamed | wiff/structs.py:506-513 | a name lookup returns the level with exactly that name, or KeyError |
| Structs.LevelStringRoundTrip | wiff/structs.py:525-530 | `level_from_string` inverts `level_to_string`, and the reverse direction gives the upper-cased name |
| Structs.LevelFromStringIgnoresCase | wiff/structs.py:529-530 | the level lookup ignores case |
| Structs.TypeOf | wiff/structs.py:515-523 | a type number converts iff it is 0..6 |
| Structs.TypeNamed | wiff/structs.py:515-523 | a type-name lookup returns the type with exactly that name, or KeyError |
| Structs.TypeStringRoundTrip | wiff/structs.py:532-537 | `type_from_string` inverts `type_to_string` both ways, and is case-sensitive ("int8" is KeyError) |
| JumpTable.Append | wiff/wiffinfo.py:250-255 | the new entry starts at the previous end (or at the first start) and spans the planned length; earlier entries stay |
| JumpTable.AppendContiguous | wiff/wiffinfo.py:250-255 | appending keeps the table contiguous, and the next free offset moves on by the record's length |
| JumpTable.AppendAllContiguous | wiff/wiffinfo.py:70-77 | appending records one after another from an empty table gives a contiguous table whose next free offset is the first start plus the total length |
| JumpTable.AppendAllEntry | wiff/wiffinfo.py:70-77 | entry `i` starts at the first start plus the earlier lengths and spans length `i` |
| Info.ChannelLenIsLenplan | wiff/wiffinfo.py:70-72 | the channel length used for the table is the channel lenplan |
| Info.FileLenIsLenplan | wiff/wiffinfo.py:233-234 | the file length used for the table is the file lenplan |
| Info.ChannelTableContiguous | wiff/wiffinfo.py:66-77 | the channel table built by `_initchannels` is contiguous from its first start |
| Info.ChannelTableEntries | wiff/wiffinfo.py:66-77 | channel entry `i` starts after the `4n` bytes of entries plus the lenplans of channels `0..i-1`, and ends one lenplan later |
| Info.ChannelEntryMatchesRecord | wiff/wiffinfo.py:79-95 | a channel entry's byte length equals the span its record offsets describe iff the three strings are ASCII |
| Info.InitHeaderSteps | wiff/wiffinfo.py:37-63 | `initheader` is the channel block followed by `add_file` for each file in order |
| Info.InitHeaderWellFormed | wiff/wiffinfo.py:37-108 | a fresh INFO header is well formed (counts match the tables, the tables are contiguous, every record carries its index and its string offsets), and its strings are packed back to back from 44 |
| Info.InitHeaderLayout | wiff/wiffinfo.py:66-108 | the channel table and records are those `_initchannels` writes (record `i` has index `i`, name at 10, unit and comment bounds following), `index_file_start` is the last channel end plus the table offset, and file record `i` has file `i`'s name |
| Info.SetStart | wiff/wiffinfo.py:178-188 | the start setter succeeds iff the text is as long as the space between `index_start` and `index_end`, and then changes only the start; otherwise NotImplementedError |
| Info.SetEnd | wiff/wiffinfo.py:194-203 | the end setter succeeds iff the length is unchanged, and changes only the end |
| Info.SetDescription | wiff/wiffinfo.py:209-213 | the description setter succeeds iff the length is unchanged, and changes only the description |
| Info.SettersUndo | wiff/wiffinfo.py:178-213 | setting the old text back after a successful set restores the header |
| Info.FindFileSpec | wiff/wiffinfo.py:221-227 | the lookup returns the first record with the name, and is ValueError exactly when none has it |
| Info.AddFile | wiff/wiffinfo.py:230-268 | `add_file` fails only with ValueError (from the resize) or a struct error |
| Info.AddFileGrowth | wiff/wiffinfo.py:236-244 | the chunk grows by exactly one page iff the file-table end + the new record + its 4-byte entry passes the chunk size |
| Info.AddFileNeedsPageSize | wiff/wiffinfo.py:236-244 | a chunk off the page grid cannot grow, so an `add_file` that needs room fails with ValueError |
| Info.AddFileWellFormed | wiff/wiffinfo.py:247-268 | `add_file` keeps the header well formed and appends record `fnum` with name bounds 37 and 37+len and the four ranges verbatim; earlier records, channels and strings stay |
| Info.AddFileEntry | wiff/wiffinfo.py:247-268 | the new entry starts at the previous end and spans the planned length, and `index_file_end` is its end plus the table offset |
| Info.AddFilesWellFormed | wiff/wiffinfo.py:101-108 | `_initfiles` keeps the header well formed |
| Info.AddFilesNames | wiff/wiffinfo.py:101-108 | `_initfiles` records the names in order after the existing ones |
| Info.AddFileThenFind | wiff/wiffinfo.py:221-268 | a file added under a new name is the one `get_file_by_name` then finds |
| FrameCodec.ChannelWidthCeil | wiff/wiffwave.py:39-40 | the width `(bits + bits%8)//8` equals `ceil(bits/8)` iff `bits % 8` is 0 or at least 4, and never exceeds it |
| FrameCodec.ChannelWidthExamples | wiff/wiffwave.py:39-40 | 9 bits give 1 byte where 2 are needed; 3 bits give 0 |
| FrameCodec.FrameSizesRelate | wiff/wiffwave.py:39-41 | the `frame_size` total is the `setup` total plus the floored leftover bits, and the two agree iff fewer than 8 bits are left over |
| FrameCodec.FrameSizesDiffer | wiff/wiffwave.py:139-142 | for two 10-bit channels `setup` gives 2 bytes per frame and `initheader` gives 3 |
| FrameCodec.InsaneSerSpec | wiff/wiffwave.py:69-73 | the manual serialiser succeeds iff there are enough samples and each fits its width, and then gives the LE concatenation; otherwise IndexError or OverflowError |
| FrameCodec.DecodeEncode | wiff/wiffwave.py:69-81 | decoding the concatenated LE encoding gives the samples back |
| FrameCodec.EncodeDecode | wiff/wiffwave.py:69-81 | encoding the decoded samples of a frame-sized buffer gives the buffer back |
| FrameCodec.EncodeAt | wiff/wiffwave.py:69-73 | sample `i` sits at the sum of the earlier widths, as its LE encoding |
| FrameCodec.SerDeserRoundTrip | wiff/wiffwave.py:44-83 | on either path, each called in its own convention, deserialising a serialised frame gives the samples back |
| FrameCodec.DeserSerRoundTrip | wiff/wiffwave.py:44-83 | on either path, each called in its own convention, serialising a deserialised frame-sized buffer gives the bytes back |
| FrameCodec.PathsAgree | wiff/wiffwave.py:44-83 | where the struct path succeeds, the manual path, called with the same samples as one sequence, gives the same bytes and values |
| FrameCodec.SaneDeserRejectsShort | wiff/wiffwave.py:59-62 | the struct path refuses a short buffer that the manual path decodes |
| Wave.CompressionTag | wiff/wiffwave.py:90-101 | the tag is defined iff the compression is None, "z" or "b" in any case; any other value is ValueError |
| Wave.CompressionTags | wiff/wiffwave.py:90-101 | None gives '0', z/Z gives 'Z', b/B gives 'B', and "gz" is refused |
| Wave.InitChunk | wiff/wiffwave.py:85-106 | `initchunk` makes a one-page WIFFWAVE chunk; it succeeds iff the tag is valid and the segment id fits a u32 |
| Wave.InitChunkAttributes | wiff/wiffwave.py:98-106 | the attributes read back give the tag, three zeros, and the LE u32 segment id |
| Wave.ChannelBits | wiff/wiffwave.py:35-36 | each active channel's bit count is looked up in INFO; a missing channel is IndexError |
| Wave.FrameAreaStart | wiff/wiffwave.py:238-257 | frames start after the 24-byte chunk header and the 48-byte wave header |
| Wave.FrameSpace | wiff/wiffwave.py:238-257 | the space is the largest frame count that fits after the 72 header bytes; a zero frame size is ZeroDivisionError |
| Wave.FrameSpaceAvailable | wiff/wiffwave.py:292-298 | the available space is the space less the frames already held |
| Wave.SetFrameSpace | wiff/wiffwave.py:259-290 | the setter changes at most the chunk size |
| Wave.SetFrameSpaceSize | wiff/wiffwave.py:259-290 | a smaller space is ValueError; a larger one resizes to the fewest whole pages holding `val × frame_size` bytes, never shrinking |
| Wave.SetFrameSpaceFallsShort | wiff/wiffwave.py:259-290 | with 1-byte frames on one page, asking for 4096 frames changes nothing and leaves room for 4024 |
| Wave.SetFidxStartSpec | wiff/wiffwave.py:166-183 | `fidx_start` fails exactly on a non-u64 value or a missing file entry (IndexError); otherwise the wave takes the value, the entry keeps the smaller start, and nothing else changes |
| Wave.SetFidxEndSpec | wiff/wiffwave.py:185-198 | `fidx_end` fails exactly on a non-u64 value or a missing file entry; otherwise the wave and the entry both take the value |
| Wave.SetChannels | wiff/wiffwave.py:157-164 | 32 bytes replace the bitmap and nothing else; a non-bytes, non-tuple value is TypeError |
| Wave.ResolveIndices | wiff/wiffwave.py:113-122 | integer channel references resolve to those indices and their bit counts |
| Wave.InitHeaderChannels | wiff/wiffwave.py:108-147 | after `initheader` the bitmap holds exactly the given channels and the record size is the floored padded-bit frame size |
| Wave.CheckFrames | wiff/wiffwave.py:313-332 | frame validation yields the channel sizes when it passes |
| Wave.AddFramesNeedsRoom | wiff/wiffwave.py:313-315 | too few free slots raise NeedResize before anything else |
| Wave.AddFramesValidates | wiff/wiffwave.py:316-332 | with room, validation fails with ValueError exactly when some frame has the wrong sample count or a sample of the wrong byte length |
| Wave.WriteFramesAt | wiff/wiffwave.py:351-355 | frame `i` lands in slot `delta + i`, and other slots keep their bytes |
| Wave.AddFramesSlots | wiff/wiffwave.py:339-355 | after `add_frames`, frame `i` is in slot `(fidx_end - fidx_start) + i` and the other slots are unchanged |
| Wave.CommitSpec | wiff/wiffwave.py:357-365 | the counters step: `num_frames` and `fidx_end` become old count + n, and `fidx_start` is reset only for an empty recording |
| Wave.AddFramesCounters | wiff/wiffwave.py:357-365 | after `add_frames` of n frames: `num_frames += n`; `fidx_end` and the file entry's `fidx_end` are the new count; `fidx_start` is reset only when the recording was empty; channels and sizes stay |
| Wave.DecodeFlatten | wiff/wiffwave.py:74-81 | deserialising the concatenated samples of a frame gives each sample's LE value |
| Wave.AddedFrameDecodes | wiff/wiffwave.py:339-355 | the slot written for frame `i` deserialises to frame `i`'s sample values |
| Anno.TwoPageChunkSpec | wiff/wiffanno.py:18-41 | `initchunk` succeeds iff the compression tag is valid (else ValueError); the file grows by one page with its prefix kept; the chunk is 8192 bytes with the tag attribute |
| Anno.InitHeader | wiff/wiffanno.py:43-53 | `initheader` zeroes the counters and sets `index_annotations` to 38, leaving the table alone |
| Anno.InitHeaderWellFormed | wiff/wiffanno.py:43-53 | a fresh ANNO header satisfies the annotation invariant |
| Anno.MarkerCode | wiff/wiffanno.py:119-121 | a non-string marker passes through unchanged |
| Anno.MarkerRoundTrip | wiff/wiffanno.py:119-121 | a 4-character ASCII marker becomes the LE u32 of its bytes, which packs back to them |
| Anno.MarkerRejects | wiff/wiffanno.py:119-121 | a non-ASCII marker is UnicodeEncodeError and a marker of other length a struct error |
| Anno.FieldValue | wiff/wiffanno.py:137-155 | a record field is written iff the value is present, an int and fits its width |
| Anno.Record | wiff/wiffanno.py:137-155 | the record holds the type and the frame span, and a span that does not fit u64 is a struct error |
| Anno.NewRecordFields | wiff/wiffanno.py:137-155 | the record keeps the type and the frame span asked for, and its payload is a comment for C, a marker for M and a marker with value for D |
| Anno.RecordLenIsLenplan | wiff/wiffanno.py:117-155 | the written record's length is the annotation lenplan |
| Anno.AddAnnotation | wiff/wiffanno.py:97-115 | an unknown type is KeyError; C without a comment, or M/D without a marker, or D without a value, is ValueError; a bad frame span fails as `twotuplecheck` does; all before any write |
| Anno.AddAnnotationSteps | wiff/wiffanno.py:97-181 | a successful `add_annotation` passes every check and commits the new record |
| Anno.CommitFails | wiff/wiffanno.py:167-176 | the commit fails with a struct error exactly when a counter overflows its field |
| Anno.CommitSpec | wiff/wiffanno.py:124-181 | after the commit: `aidx_end = num_annotations = n + 1`; INFO's count rises by one; `fidx_first`/`fidx_last` are a running min/max; the file entry takes the block's ranges; the table gains one entry |
| Anno.CommitIndexed | wiff/wiffanno.py:135-176 | the commit keeps the table contiguous from 4034, with one entry per record spanning its length |
| Anno.CommitSpans | wiff/wiffanno.py:126-172 | the commit keeps `fidx_first`/`fidx_last` the tightest bounds over the records |
| Anno.AddAnnotationWellFormed | wiff/wiffanno.py:97-181 | `add_annotation` keeps the ANNO block well formed |
| Anno.AddAnnotationRecord | wiff/wiffanno.py:124-181 | the new record is number `n` with the type and span asked for, the block and INFO each count one more, and the file entry updated is the one named by the segment |
| Anno.FirstAnnotation | wiff/wiffanno.py:126-132 | the first annotation sets `aidx_start` to 0 and the frame bounds to its own span |
| Anno.CommentEndMatchesEntry | wiff/wiffanno.py:135-150 | a comment record's end offset equals its table entry's length iff the comment is bytes or ASCII |
| Anno.ResizeSpec | wiff/wiffanno.py:206-228 | a resize succeeds iff the size is not below the current one (else ValueError), and gives the smallest page multiple holding it, changing only the size |
| Anno.ResizeAddPageSpec | wiff/wiffanno.py:184-204 | adding pages succeeds iff the count is non-negative, growing a page-aligned chunk by exactly that many pages |
| Meta.InitHeader | wiff/wiffmeta.py:46-52 | `initheader` sets `num_metas` to 0 and `index_metas` to 6, the offset 4 plus 2 |
| Meta.HalfIsWidth | wiff/wiffmeta.py:77-111 | each integer type's threshold is half the range of its byte width |
| Meta.IntRange | wiff/wiffmeta.py:77-111 | a range is classified iff INT64 holds both ends (else ValueError); the type holds both, and every narrower type fails one |
| Meta.MinOf | wiff/wiffmeta.py:76 | the minimum is an element and at most every element |
| Meta.MaxOf | wiff/wiffmeta.py:76 | the maximum is an element and at least every element |
| Meta.GuessType | wiff/wiffmeta.py:62-119 | an empty list is IndexError, mixed types TypeError; an int is classified by its range; a float is FLOAT64, a str STRING; anything else TypeError |
| Meta.GuessIntSmallest | wiff/wiffmeta.py:101-111 | a single int is classified iff it fits 64 bits, with the smallest type that holds it |
| Meta.GuessListSmallest | wiff/wiffmeta.py:77-90 | an int list is classified iff every item fits 64 bits, with a type that holds them all while every narrower type misses one |
| Meta.GuessBool | wiff/wiffmeta.py:71-111 | a scalar bool is INT8, and a list holding a bool is TypeError |
| Meta.ConvertLevelAsWritten | wiff/wiffmeta.py:131-139 | as written, a level name becomes a plain int rather than a LEVEL |
| Meta.RecordingByNameKeepsIndex | wiff/wiffmeta.py:131-143 | as written, `add_meta("recording", 5, …)` keeps index 5, while the RECORDING member forces 0 |
| Meta.LevelAndIndexSpec | wiff/wiffmeta.py:131-143 | corrected: a level given as member, number or name in any case is the same level, and RECORDING forces index 0 |
| Meta.ConvertLevelAgrees | wiff/wiffmeta.py:131-139 | the corrected conversion fails exactly where the written one does, with the same error, and otherwise names the same level value |
| Meta.AsItems | wiff/wiffmeta.py:156-160 | a list or tuple is used as is; a str splits into its characters; bytes become their int values; anything else is TypeError |
| Meta.EncodeAll | wiff/wiffmeta.py:163-166 | each item is replaced by its UTF-8-encoded form |
| Meta.AddMetaPlan | wiff/wiffmeta.py:121-172 | on success the key is a str with `kln` its UTF-8 length, `ln = 16 + kln + dln`, and the level is the converted one with index 0 for RECORDING; a non-str key is ValueError |
| Meta.AddMetaScalarInt | wiff/wiffmeta.py:156-160 | a scalar int is not iterable, so `add_meta` of it always fails |
| Meta.AddMetaStringPlan | wiff/wiffmeta.py:149-172 | for an ASCII string the data plan is 2 + 5 per character, each a one-byte string |

## Left out

- Real mmap, file handles and `os.path.getsize`: the file is a byte sequence, and the file size is its length.
- Writes made before a late exception: a failing operation returns an error and no new state.
- `bstruct` internals are not part of this model. These include the jump-table `add` (modelled as an append whose start is the previous end), its page growth, and the `num_files` increment that `add_file` (wiff/wiffinfo.py:228-268) never writes itself and leaves to `files.add`. The first start of the file table is taken as 4, just after its first 4-byte entry, as the expected bytes at tests/__init__.py:57 show; `add_file` passes `start=12`, whose meaning lies inside `bstruct`. The first start of the annotation table is 4034 (4096 - 38 - 24, the value `add_annotation` passes).
- Compression codecs: only the attribute tag byte is modelled.
- Datetime formatting of the INFO strings, and case mapping beyond ASCII in the level names.
- `wiff/wiff.py`, `wiff/obj.py`, `wiff/db.py` (SQLite redesign), `wiff/__main__.py` (CLI) and `examples/silly.py`: not part of this model.
- `annos_struct.lenplan` (wiff/structs.py:306-327): it references an undefined name.
- `add_meta` past the length planning (wiff/wiffmeta.py:173-186): it prints, returns and never writes the record.
- Meta.GuessType: the float and str branches for lists use the nonexistent `TYPE_FLOAT64`/`TYPE_STRING`, so they are modelled as AttributeError.
- Meta.EncodedLen: keeps only the lengths of encoded meta data, because only the length planning is modelled.
- Meta.AsItems: treats a `bstruct.interval` as not iterable.
- Float meta arrays: only their widths.
- Crash sites are modelled as the evidently intended operation: the missing `struct` import in `bits.to_bytes`, `WIFF_chunk` in the resize calls of `add_file` and `resize`, `annotations_jumplist` in `add_annotation`, `bstruct` in `aidx`/`fidx`, `NeedResizeException` in `add_frames` (wiff/wiffwave.py:314, which does not import it, so the source raises NameError where the model returns NeedResize), and the undefined names in two error messages.
- Anno.AddAnnotation: the comment is written as text of the declared length; the bytes of the `member_str` write are not modelled.
- `add_annotation_C`/`_M`/`_D` (wiff/wiffanno.py:91-96): one-line wrappers that pass one keyword to `add_annotation`, which is modelled with the matching `Params`.
- The `bitfield` list helpers `append`, `pop`, `push`, `insert`, `__len__` and `__getitem__`: plain list operations, not named in the core.
- Wave.SetChannels: the mmap slice assignment is modelled as refusing a tuple of non-byte values (TypeError) or a value of length other than 32 (IndexError); the exact exceptions mmap raises are not modelled.
- Meta.AddMetaPlan: uses the corrected level conversion (see Findings), so a level given by the name "recording" plans index 0 where the code as written keeps the given index.
- FrameCodec.Ser: the `struct` serialiser takes the samples as separate arguments (`sane_ser(*samps)`, wiff/wiffwave.py:59), the manual one as a single sequence (`insane_ser(samps)`, wiff/wiffwave.py:69). The model gives both the sample sequence, so it states each path called its own way. The failures of a call in the other convention are not modelled: one tuple passed to the `struct` path is a struct error, and separate samples passed to the manual path are a TypeError. No single call to `Ser` works on both paths.
- Wave.ResolveIndices: states only non-negative in-range integer references; negative indices and channel-record references are modelled in `Wave.Resolve` without a lemma of their own.

## Findings

| source | as written | input that shows it | evidently intended | confidence | as-written member | corrected member |
|---|---|---|---|---|---|---|
| wiff/wiffmeta.py:131-143 | `level_from_string` returns the enum's int `.value`, so a level given by name is an int and `level == LEVEL.RECORDING` is False | `add_meta("recording", 5, …)` keeps `level_index` 5 | a recording-level meta always has index 0, however the level is given | high, not executed | Meta.RecordingByNameKeepsIndex | Meta.LevelAndIndexSpec |
