/** The WIFFINFO chunk of `wiff/wiffinfo.py` at record level: the header's
    index and count fields, the three packed strings, the channel table and
    the file table. Offsets are relative to the chunk body, as the source
    stores them. */
module Info {
  import opened Bytes
  import opened Errors
  import opened Py
  import opened Structs
  import opened JumpTable
  import Chunk

  /** A channel as passed to `initheader` (`name`, `unit`, `comment`, `bit`). */
  datatype ChannelSpec = ChannelSpec(name: string, unit: string, comment: string, bit: int)

  /** A file as passed to `initheader` and `add_file`. */
  datatype FileSpec = FileSpec(name: string, fidxStart: int, fidxEnd: int, aidxStart: int, aidxEnd: int)

  datatype ChannelRecord = ChannelRecord(
    index: nat, indexName: nat, bit: nat, indexUnit: nat,
    indexCommentStart: nat, indexCommentEnd: nat,
    name: string, unit: string, comment: string)

  datatype FileRecord = FileRecord(
    index: nat, indexNameStart: nat, indexNameEnd: nat,
    fidxStart: nat, fidxEnd: nat, aidxStart: nat, aidxEnd: nat,
    name: string)

  /** The WIFFINFO chunk: its size (from the chunk header) and its body. */
  datatype InfoBlock = InfoBlock(
    chunkSize: nat,
    indexStart: nat, indexEnd: nat, indexDescription: nat, indexChannels: nat,
    indexFileStart: nat, indexFileEnd: nat,
    fs: nat, numChannels: nat, numFiles: nat,
    numFrames: nat, numAnnotations: nat, numMetas: nat,
    start: string, end: string, description: string,
    channelTable: seq<Entry>, channels: seq<ChannelRecord>,
    fileTable: seq<Entry>, files: seq<FileRecord>)

  /** Where the first file record starts, relative to the file table: just
      after its own 4-byte jump-table entry. */
  const FILE_TABLE_FIRST_START: nat := 4

  /** Bytes a channel record occupies: 10 fixed bytes and the UTF-8
      lengths of its three strings. */
  function ChannelLen(c: ChannelSpec): nat
  {
    CHANNEL_FIXED + Utf8Len(c.name) + Utf8Len(c.unit) + Utf8Len(c.comment)
  }

  /** The length is the one `channel_struct.lenplan` plans for the record. */
  lemma ChannelLenIsLenplan(c: ChannelSpec)
    ensures ChannelLenplan(Str(c.name), Str(c.unit), Str(c.comment)) == Ok(ChannelLen(c))
  {
    var vs := [Str(c.name), Str(c.unit), Str(c.comment)];
    assert vs[1..][1..][1..] == [];
    assert TextsLen(vs[1..][1..]) == Ok(Utf8Len(c.comment));
    assert TextsLen(vs[1..]) == Ok(Utf8Len(c.unit) + Utf8Len(c.comment));
    assert TextsLen(vs) == Ok(Utf8Len(c.name) + Utf8Len(c.unit) + Utf8Len(c.comment));
  }

  /** Bytes a file record occupies: 37 fixed bytes and its name in UTF-8. */
  function FileLen(name: string): nat
  {
    FILE_FIXED + Utf8Len(name)
  }

  /** The length is the one `file_struct.lenplan` plans for the record. */
  lemma FileLenIsLenplan(name: string)
    ensures FileLenplan(Str(name)) == Ok(FileLen(name))
  {
  }

  function ChannelLens(cs: seq<ChannelSpec>): (r: seq<nat>)
    ensures |r| == |cs| && forall i | 0 <= i < |cs| :: r[i] == ChannelLen(cs[i])
  {
    seq(|cs|, i requires 0 <= i < |cs| => ChannelLen(cs[i]))
  }

  /** The record `_initchannels` writes for channel `i`: its strings start
      right after the 10 fixed bytes and follow one another, measured in
      characters. */
  function ChannelRecordOf(i: nat, c: ChannelSpec): ChannelRecord
    requires c.bit >= 0
  {
    var n := CHANNEL_FIXED;
    ChannelRecord(i, n, c.bit, n + |c.name|, n + |c.name| + |c.unit|,
                  n + |c.name| + |c.unit| + |c.comment|, c.name, c.unit, c.comment)
  }

  /** Every field `_initchannels` writes for the channels fits its width. */
  predicate ChannelsFit(cs: seq<ChannelSpec>, table: seq<Entry>)
    requires |table| == |cs|
  {
    forall i | 0 <= i < |cs| ::
      && Fits(table[i].start, 2) && Fits(table[i].end, 2)
      && Fits(i, 1) && Fits(cs[i].bit, 1)
      && Fits(CHANNEL_FIXED + |cs[i].name| + |cs[i].unit| + |cs[i].comment|, 2)
  }

  /** The file records agree with their table entries and their own
      string offsets are those `add_file` sets. */
  predicate FilesWellFormed(table: seq<Entry>, files: seq<FileRecord>)
  {
    && |table| == |files|
    && Contiguous(table, FILE_TABLE_FIRST_START)
    && forall i | 0 <= i < |files| ::
         && files[i].index == i
         && files[i].indexNameStart == FILE_FIXED
         && files[i].indexNameEnd == FILE_FIXED + |files[i].name|
         && table[i].end == table[i].start + FileLen(files[i].name)
  }

  /** The channel records agree with their table entries and their own
      string offsets are those `_initchannels` sets. */
  predicate ChannelsWellFormed(table: seq<Entry>, chans: seq<ChannelRecord>)
  {
    && |table| == |chans|
    && Contiguous(table, 4 * |chans|)
    && forall i | 0 <= i < |chans| ::
         && chans[i].index == i
         && chans[i].indexName == CHANNEL_FIXED
         && chans[i].indexCommentEnd == CHANNEL_FIXED + |chans[i].name| + |chans[i].unit| + |chans[i].comment|
  }

  /** The header is consistent: table sizes match the counts, both tables are
      contiguous, `index_file_end` follows the last file record. */
  predicate WellFormed(b: InfoBlock)
  {
    && b.numChannels == |b.channels|
    && b.numFiles == |b.files|
    && ChannelsWellFormed(b.channelTable, b.channels)
    && FilesWellFormed(b.fileTable, b.files)
    && b.indexFileEnd == b.indexFileStart + if |b.fileTable| == 0 then 0 else b.fileTable[|b.fileTable| - 1].end
  }

  /** Only the file table, its bookkeeping and the chunk size differ. */
  predicate OnlyFilesChanged(b: InfoBlock, r: InfoBlock)
  {
    r == b.(chunkSize := r.chunkSize, indexFileEnd := r.indexFileEnd, numFiles := r.numFiles,
            fileTable := r.fileTable, files := r.files)
  }

  /** `add_file(fname, fidx_start, fidx_end, aidx_start, aidx_end)`.
      When the file table's end plus the new record and its 4-byte entry
      would pass the chunk size, the chunk first grows by one page (the
      `ResizeChunk` call, whose size checks apply). The record is appended
      to the file table and gets index `num_files`; any value too wide for
      its field is a `struct.error`. */
  function AddFile(b: InfoBlock, f: FileSpec): (r: Result<InfoBlock>)
    ensures r.Err? ==> r.error in {ValueError, StructError}
  {
    var ln := FileLen(f.name);
    var grow := b.indexFileEnd + ln + 4 > b.chunkSize;
    var size :- if grow then Chunk.ResizePlan(b.chunkSize, b.chunkSize + 4096) else Ok(b.chunkSize);
    var fnum := b.numFiles;
    var fileEnd := NextStart(b.fileTable, FILE_TABLE_FIRST_START) + ln + b.indexFileStart;
    if !Fits(fileEnd, 2) || !Fits(fnum, 1) || !Fits(fnum + 1, 2) || !Fits(FILE_FIXED + |f.name|, 2)
       || !Fits(f.fidxStart, 8) || !Fits(f.fidxEnd, 8) || !Fits(f.aidxStart, 8) || !Fits(f.aidxEnd, 8)
    then Err(StructError)
    else
      var rec := FileRecord(fnum, FILE_FIXED, FILE_FIXED + |f.name|, f.fidxStart, f.fidxEnd, f.aidxStart, f.aidxEnd, f.name);
      Ok(b.(chunkSize := size, fileTable := Append(b.fileTable, ln, FILE_TABLE_FIRST_START),
            files := b.files + [rec], numFiles := fnum + 1, indexFileEnd := fileEnd))
  }

  /** `add_file` keeps the header well formed, appends the record with the
      next index and the given values, and leaves the earlier records, the
      channels and the strings alone. */
  lemma AddFileWellFormed(b: InfoBlock, f: FileSpec)
    requires WellFormed(b)
    requires AddFile(b, f).Ok?
    ensures var r := AddFile(b, f).value;
      && WellFormed(r)
      && r.numFiles == b.numFiles + 1
      && r.files[b.numFiles] ==
           FileRecord(b.numFiles, FILE_FIXED, FILE_FIXED + |f.name|, f.fidxStart, f.fidxEnd, f.aidxStart, f.aidxEnd, f.name)
      && r.files[..b.numFiles] == b.files
      && r.fileTable[..b.numFiles] == b.fileTable
      && OnlyFilesChanged(b, r)
  {
    var r := AddFile(b, f).value;
    var ln := FileLen(f.name);
    AppendContiguous(b.fileTable, ln, FILE_TABLE_FIRST_START);
    assert r.files[..b.numFiles] == b.files;
    forall i | 0 <= i < |r.files|
      ensures r.files[i].index == i
      ensures r.fileTable[i].end == r.fileTable[i].start + FileLen(r.files[i].name)
    {
      if i < |b.files| {
        assert r.files[i] == b.files[i] && r.fileTable[i] == b.fileTable[i];
      }
    }
  }

  /** `add_file` grows the chunk by exactly one page when the table end plus
      the new record and its entry would pass the chunk size, and leaves
      the size alone otherwise. */
  lemma AddFileGrowth(b: InfoBlock, f: FileSpec)
    requires AddFile(b, f).Ok?
    ensures b.indexFileEnd + FileLen(f.name) + 4 > b.chunkSize ==>
      AddFile(b, f).value.chunkSize == b.chunkSize + 4096
    ensures b.indexFileEnd + FileLen(f.name) + 4 <= b.chunkSize ==>
      AddFile(b, f).value.chunkSize == b.chunkSize
  {
  }

  /** A chunk whose size is off the page grid cannot grow: `add_file` then
      fails with `ResizeChunk`'s `ValueError`. */
  lemma AddFileNeedsPageSize(b: InfoBlock, f: FileSpec)
    requires b.indexFileEnd + FileLen(f.name) + 4 > b.chunkSize
    requires b.chunkSize % 4096 != 0
    ensures AddFile(b, f) == Err(ValueError)
  {
  }

  /** The new record's table entry starts where the previous one ended (or
      at the first-record offset) and spans exactly its planned length;
      `index_file_end` is that entry's end plus the table offset. */
  lemma AddFileEntry(b: InfoBlock, f: FileSpec)
    requires WellFormed(b)
    requires AddFile(b, f).Ok?
    ensures var r := AddFile(b, f).value;
      && r.fileTable[b.numFiles].start == NextStart(b.fileTable, FILE_TABLE_FIRST_START)
      && r.fileTable[b.numFiles].end == r.fileTable[b.numFiles].start + FILE_FIXED + Utf8Len(f.name)
      && r.indexFileEnd == r.fileTable[b.numFiles].end + b.indexFileStart
  {
  }

  /** `_initfiles`: `add_file` for every file in order. */
  function AddFiles(b: InfoBlock, fs: seq<FileSpec>): (r: Result<InfoBlock>)
    decreases |fs|
  {
    if |fs| == 0 then Ok(b)
    else
      var b1 :- AddFile(b, fs[0]);
      AddFiles(b1, fs[1..])
  }

  /** Adding the files one by one keeps the header well formed, adds one
      record per file and leaves the channels and the strings alone. */
  lemma {:induction false} AddFilesWellFormed(b: InfoBlock, fs: seq<FileSpec>)
    requires WellFormed(b)
    requires AddFiles(b, fs).Ok?
    decreases |fs|
    ensures var r := AddFiles(b, fs).value;
      && WellFormed(r)
      && r.numFiles == b.numFiles + |fs|
      && OnlyFilesChanged(b, r)
  {
    if |fs| > 0 {
      AddFileWellFormed(b, fs[0]);
      AddFilesWellFormed(AddFile(b, fs[0]).value, fs[1..]);
    }
  }

  /** Adding the files one by one keeps the earlier records and gives the
      new ones the files' names, in order. */
  lemma {:induction false} AddFilesNames(b: InfoBlock, fs: seq<FileSpec>)
    requires AddFiles(b, fs).Ok?
    decreases |fs|
    ensures var r := AddFiles(b, fs).value;
      && |r.files| == |b.files| + |fs|
      && r.files[..|b.files|] == b.files
      && forall i | 0 <= i < |fs| :: r.files[|b.files| + i].name == fs[i].name
  {
    if |fs| > 0 {
      var b1 := AddFile(b, fs[0]).value;
      assert b1.files == b.files + [b1.files[|b.files|]];
      AddFilesNames(b1, fs[1..]);
      var r := AddFiles(b1, fs[1..]).value;
      assert r.files[..|b.files|] == r.files[..|b1.files|][..|b.files|];
      forall i | 0 <= i < |fs| ensures r.files[|b.files| + i].name == fs[i].name {
        if i == 0 {
          assert r.files[..|b1.files|][|b.files|] == r.files[|b.files|];
        } else {
          assert r.files[|b1.files| + (i - 1)].name == fs[1..][i - 1].name;
        }
      }
    }
  }

  /** The channel records `_initchannels` writes, one per channel. */
  function ChannelRecords(cs: seq<ChannelSpec>): (r: seq<ChannelRecord>)
    requires forall i | 0 <= i < |cs| :: cs[i].bit >= 0
    ensures |r| == |cs| && forall i | 0 <= i < |cs| :: r[i] == ChannelRecordOf(i, cs[i])
  {
    seq(|cs|, i requires 0 <= i < |cs| && cs[i].bit >= 0 => ChannelRecordOf(i, cs[i]))
  }

  /** The channel jump table `_initchannels` fills: one entry per channel
      of its planned length, the records after the `4 * n` bytes of
      entries. */
  function ChannelTable(cs: seq<ChannelSpec>): (r: seq<Entry>)
    ensures |r| == |cs|
  {
    AppendAll(ChannelLens(cs), |cs|, 4 * |cs|)
  }

  /** The channel table is contiguous from its first record, right after
      the `4 * n` bytes of entries. */
  lemma ChannelTableContiguous(cs: seq<ChannelSpec>)
    ensures Contiguous(ChannelTable(cs), 4 * |cs|)
  {
    AppendAllContiguous(ChannelLens(cs), |cs|, 4 * |cs|);
  }

  /** Channel entry `i` spans `[4n + L0 + .. + Li-1, 4n + L0 + .. + Li)`
      for the planned record lengths `Li`. */
  lemma ChannelTableEntries(cs: seq<ChannelSpec>)
    ensures forall i | 0 <= i < |cs| ::
      && ChannelTable(cs)[i].start == 4 * |cs| + PrefixSum(ChannelLens(cs), i)
      && ChannelTable(cs)[i].end == 4 * |cs| + PrefixSum(ChannelLens(cs), i + 1)
  {
    var n := |cs|;
    var lens := ChannelLens(cs);
    forall i | 0 <= i < n
      ensures AppendAll(lens, n, 4 * n)[i].start == 4 * n + PrefixSum(lens, i)
      ensures AppendAll(lens, n, 4 * n)[i].end == 4 * n + PrefixSum(lens, i + 1)
    {
      AppendAllEntry(lens, n, 4 * n, i);
    }
  }

  /** The header `_initchannels` leaves behind, before any file is added:
      the three strings packed back to back after the 44 fixed bytes, the
      channel table right after them, and an empty file table right after
      the last channel record. */
  function ChannelBlock(chunkSize: nat, start: string, end: string, desc: string,
                        fs: int, numFrames: int, numAnnotations: int, numMetas: int,
                        channels: seq<ChannelSpec>): InfoBlock
    requires |channels| > 0 && fs >= 0 && numFrames >= 0 && numAnnotations >= 0 && numMetas >= 0
    requires forall i | 0 <= i < |channels| :: channels[i].bit >= 0
  {
    var iChan := INFO_FIXED + |start| + |end| + |desc|;
    var table := ChannelTable(channels);
    InfoBlock(chunkSize, INFO_FIXED, INFO_FIXED + |start|, INFO_FIXED + |start| + |end|, iChan,
              table[|table| - 1].end + iChan, table[|table| - 1].end + iChan,
              fs, |channels|, 0, numFrames, numAnnotations, numMetas, start, end, desc,
              table, ChannelRecords(channels), [], [])
  }

  /** The header `_initchannels` builds is well formed. */
  lemma ChannelBlockWellFormed(chunkSize: nat, start: string, end: string, desc: string,
                               fs: int, numFrames: int, numAnnotations: int, numMetas: int,
                               channels: seq<ChannelSpec>)
    requires |channels| > 0 && fs >= 0 && numFrames >= 0 && numAnnotations >= 0 && numMetas >= 0
    requires forall i | 0 <= i < |channels| :: channels[i].bit >= 0
    ensures WellFormed(ChannelBlock(chunkSize, start, end, desc, fs, numFrames, numAnnotations, numMetas, channels))
  {
    ChannelTableContiguous(channels);
  }

  /** `initheader(start, end, desc, fs, num_frames, num_annotations,
      num_metas, channels, files)` on a chunk of `chunkSize` bytes, with
      `start` and `end` already formatted as text: every header and channel
      field must fit its width (`struct.error`), there must be a channel
      (`IndexError` from the empty channel table), and then the files are
      added one by one. */
  function InitHeader(chunkSize: nat, start: string, end: string, desc: string,
                      fs: int, numFrames: int, numAnnotations: int, numMetas: int,
                      channels: seq<ChannelSpec>, files: seq<FileSpec>): (r: Result<InfoBlock>)
    ensures |channels| == 0 ==> r.Err? && r.error in {StructError, IndexError}
  {
    var iEnd := INFO_FIXED + |start|;
    var iDesc := iEnd + |end|;
    var iChan := iDesc + |desc|;
    var n := |channels|;
    var table := ChannelTable(channels);
    if !Fits(iEnd, 2) || !Fits(iDesc, 2) || !Fits(iChan, 2) || !Fits(fs, 4) || !Fits(numFrames, 8)
       || !Fits(numAnnotations, 8) || !Fits(n, 2) || !Fits(|files|, 2) || !Fits(numMetas, 8)
    then Err(StructError)
    else if !ChannelsFit(channels, table) then Err(StructError)
    // `channels_jumptable[-1]` of an empty table
    else if n == 0 then Err(IndexError)
    else if !Fits(table[n - 1].end + iChan, 2) then Err(StructError)
    else AddFiles(ChannelBlock(chunkSize, start, end, desc, fs, numFrames, numAnnotations, numMetas, channels), files)
  }

  /** A successful `initheader` is `_initchannels` followed by
      `_initfiles`. */
  lemma InitHeaderSteps(chunkSize: nat, start: string, end: string, desc: string,
                        fs: int, numFrames: int, numAnnotations: int, numMetas: int,
                        channels: seq<ChannelSpec>, files: seq<FileSpec>)
    requires InitHeader(chunkSize, start, end, desc, fs, numFrames, numAnnotations, numMetas, channels, files).Ok?
    ensures |channels| > 0 && fs >= 0 && numFrames >= 0 && numAnnotations >= 0 && numMetas >= 0
    ensures forall i | 0 <= i < |channels| :: channels[i].bit >= 0
    ensures InitHeader(chunkSize, start, end, desc, fs, numFrames, numAnnotations, numMetas, channels, files) ==
      AddFiles(ChannelBlock(chunkSize, start, end, desc, fs, numFrames, numAnnotations, numMetas, channels), files)
  {
  }

  /** The header `initheader` builds is well formed, holds one channel
      record per channel and one file record per file, and packs its three
      strings back to back from byte 44. */
  lemma InitHeaderWellFormed(chunkSize: nat, start: string, end: string, desc: string,
                             fs: int, numFrames: int, numAnnotations: int, numMetas: int,
                             channels: seq<ChannelSpec>, files: seq<FileSpec>)
    requires InitHeader(chunkSize, start, end, desc, fs, numFrames, numAnnotations, numMetas, channels, files).Ok?
    ensures var b := InitHeader(chunkSize, start, end, desc, fs, numFrames, numAnnotations, numMetas, channels, files).value;
      && WellFormed(b)
      && b.numChannels == |channels| && b.numFiles == |files|
      && b.indexStart == 44
      && b.indexEnd == b.indexStart + |start|
      && b.indexDescription == b.indexEnd + |end|
      && b.indexChannels == b.indexDescription + |desc|
      && (b.start, b.end, b.description) == (start, end, desc)
  {
    InitHeaderSteps(chunkSize, start, end, desc, fs, numFrames, numAnnotations, numMetas, channels, files);
    var b0 := ChannelBlock(chunkSize, start, end, desc, fs, numFrames, numAnnotations, numMetas, channels);
    ChannelBlockWellFormed(chunkSize, start, end, desc, fs, numFrames, numAnnotations, numMetas, channels);
    AddFilesWellFormed(b0, files);
  }

  /** In the header `initheader` builds, the channel table and records are
      the ones `_initchannels` writes (see `ChannelTableEntries` for where
      each entry lies), the file table starts right after the last channel
      record, and file record `i` carries the name of file `i`. */
  lemma InitHeaderLayout(chunkSize: nat, start: string, end: string, desc: string,
                         fs: int, numFrames: int, numAnnotations: int, numMetas: int,
                         channels: seq<ChannelSpec>, files: seq<FileSpec>)
    requires InitHeader(chunkSize, start, end, desc, fs, numFrames, numAnnotations, numMetas, channels, files).Ok?
    ensures var b := InitHeader(chunkSize, start, end, desc, fs, numFrames, numAnnotations, numMetas, channels, files).value;
      var n := |channels|;
      && n > 0 && |b.channelTable| == |b.channels| == n && |b.files| == |files|
      && b.channelTable == ChannelTable(channels)
      && (forall i | 0 <= i < n :: channels[i].bit >= 0)
      && b.channels == ChannelRecords(channels)
      && b.indexFileStart == b.channelTable[n - 1].end + b.indexChannels
      && (forall i | 0 <= i < |files| :: b.files[i].name == files[i].name)
  {
    InitHeaderSteps(chunkSize, start, end, desc, fs, numFrames, numAnnotations, numMetas, channels, files);
    var b0 := ChannelBlock(chunkSize, start, end, desc, fs, numFrames, numAnnotations, numMetas, channels);
    ChannelBlockWellFormed(chunkSize, start, end, desc, fs, numFrames, numAnnotations, numMetas, channels);
    AddFilesWellFormed(b0, files);
    AddFilesNames(b0, files);
  }

  /** A channel's table entry is exactly as long as the offsets in its own
      record say if and only if its three strings are ASCII: the entry is
      planned in UTF-8 bytes, the record offsets in characters. */
  lemma ChannelEntryMatchesRecord(c: ChannelSpec)
    ensures ChannelLen(c) == CHANNEL_FIXED + |c.name| + |c.unit| + |c.comment|
      <==> IsAscii(c.name) && IsAscii(c.unit) && IsAscii(c.comment)
  {
    Utf8LenAscii(c.name);
    Utf8LenAscii(c.unit);
    Utf8LenAscii(c.comment);
  }

  /** The `start` setter: the new text must be exactly as long as the space
      between `index_start` and `index_end`, else `NotImplementedError`. */
  function SetStart(b: InfoBlock, val: string): (r: Result<InfoBlock>)
    ensures r.Ok? <==> |val| == b.indexEnd - b.indexStart
    ensures r.Ok? ==> r.value == b.(start := val)
    ensures r.Err? ==> r.error == NotImplemented
  {
    if |val| == b.indexEnd - b.indexStart then Ok(b.(start := val)) else Err(NotImplemented)
  }

  /** The `end` setter: the new text must be as long as the current one. */
  function SetEnd(b: InfoBlock, val: string): (r: Result<InfoBlock>)
    ensures r.Ok? <==> |val| == |b.end|
    ensures r.Ok? ==> r.value == b.(end := val)
    ensures r.Err? ==> r.error == NotImplemented
  {
    if |val| == |b.end| then Ok(b.(end := val)) else Err(NotImplemented)
  }

  /** The `description` setter: the new text must be as long as the current one. */
  function SetDescription(b: InfoBlock, val: string): (r: Result<InfoBlock>)
    ensures r.Ok? <==> |val| == |b.description|
    ensures r.Ok? ==> r.value == b.(description := val)
    ensures r.Err? ==> r.error == NotImplemented
  {
    if |val| == |b.description| then Ok(b.(description := val)) else Err(NotImplemented)
  }

  /** The setters can be undone: setting the old text back after a
      successful set restores the header. */
  lemma SettersUndo(b: InfoBlock, val: string)
    requires |b.start| == b.indexEnd - b.indexStart
    ensures SetStart(b, val).Ok? ==> SetStart(SetStart(b, val).value, b.start) == Ok(b)
    ensures SetEnd(b, val).Ok? ==> SetEnd(SetEnd(b, val).value, b.end) == Ok(b)
    ensures SetDescription(b, val).Ok? ==> SetDescription(SetDescription(b, val).value, b.description) == Ok(b)
  {
  }

  /** `get_file_by_name(fname)`: the index of the first file record named
      `fname`, scanning from `i`. */
  function FindFile(files: seq<FileRecord>, fname: string, i: nat): (r: Result<nat>)
    decreases |files| - i
    ensures r.Ok? ==> i <= r.value < |files|
  {
    if i >= |files| then Err(ValueError)
    else if files[i].name == fname then Ok(i)
    else FindFile(files, fname, i + 1)
  }

  function GetFileByName(b: InfoBlock, fname: string): Result<nat>
  {
    FindFile(b.files, fname, 0)
  }

  /** The lookup finds the first record with the name, and fails with
      `ValueError` exactly when no record has it. */
  lemma {:induction false} FindFileSpec(files: seq<FileRecord>, fname: string, i: nat)
    decreases |files| - i
    ensures FindFile(files, fname, i).Err? <==> forall j | i <= j < |files| :: files[j].name != fname
    ensures FindFile(files, fname, i).Err? ==> FindFile(files, fname, i).error == ValueError
    ensures FindFile(files, fname, i).Ok? ==>
      var k := FindFile(files, fname, i).value;
      && i <= k < |files| && files[k].name == fname
      && forall j | i <= j < k :: files[j].name != fname
  {
    if i < |files| && files[i].name != fname {
      FindFileSpec(files, fname, i + 1);
    }
  }

  /** A file added under a name no earlier record has is the one the lookup
      finds afterwards. */
  lemma AddFileThenFind(b: InfoBlock, f: FileSpec)
    requires WellFormed(b)
    requires AddFile(b, f).Ok?
    requires GetFileByName(b, f.name).Err?
    ensures GetFileByName(AddFile(b, f).value, f.name) == Ok(b.numFiles)
  {
    var r := AddFile(b, f).value;
    AddFileWellFormed(b, f);
    FindFileSpec(b.files, f.name, 0);
    FindFileSpec(r.files, f.name, 0);
    assert forall j | 0 <= j < b.numFiles :: r.files[j] == b.files[j] by {
      assert r.files[..b.numFiles] == b.files;
      forall j | 0 <= j < b.numFiles ensures r.files[j] == b.files[j] {
        assert r.files[..b.numFiles][j] == r.files[j];
      }
    }
  }
}
