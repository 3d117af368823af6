/** The record layouts of `wiff/structs.py`: fixed field offsets and widths of
    every record, the `lenplan` size functions, and the `LEVEL`/`TYPE`
    enumerations with their string conversions. Widths follow the member
    kinds: `member_1I` 1 byte, `member_ref` and `member_2I` 2, `member_4I` 4,
    `member_8I` 8, all little-endian. */
module Structs {
  import opened Bytes
  import opened Errors
  import opened Py

  /** A fixed-position field of a record. */
  datatype Field = Field(offset: nat, width: nat)
  {
    function End(): nat { offset + width }
  }

  /** The fields follow one another without gap or overlap from offset 0 and
      end exactly at `len`. */
  predicate Tiles(fs: seq<Field>, len: nat)
  {
    && |fs| > 0
    && fs[0].offset == 0
    && (forall i | 0 <= i < |fs| - 1 :: fs[i + 1].offset == fs[i].End())
    && fs[|fs| - 1].End() == len
  }

  /** In a tiling every field ends no later than any later field starts, and
      all fields lie inside the fixed part. */
  lemma {:induction false} TilesDisjoint(fs: seq<Field>, len: nat)
    requires Tiles(fs, len)
    ensures forall i, j | 0 <= i < j < |fs| :: fs[i].End() <= fs[j].offset
    ensures forall i | 0 <= i < |fs| :: fs[i].End() <= len
  {
    forall i, j | 0 <= i < j < |fs|
      ensures fs[i].End() <= fs[j].offset
    {
      TilesStep(fs, len, i, j);
    }
    forall i | 0 <= i < |fs|
      ensures fs[i].End() <= len
    {
      if i < |fs| - 1 {
        TilesStep(fs, len, i, |fs| - 1);
      }
    }
  }

  lemma {:induction false} TilesStep(fs: seq<Field>, len: nat, i: nat, j: nat)
    requires Tiles(fs, len) && i < j < |fs|
    decreases j - i
    ensures fs[i].End() <= fs[j].offset
  {
    if j > i + 1 {
      TilesStep(fs, len, i, j - 1);
    }
  }

  // ---- chunk_struct: magic@0 (8 bytes), size@8 (u64), attributes@16 (u64).

  function ChunkFields(): (r: seq<Field>)
    ensures Tiles(r, 24)
  {
    [Field(0, 8), Field(8, 8), Field(16, 8)]
  }

  // ---- channel_struct

  const CHANNEL_INDEX: nat := 0
  const CHANNEL_INDEX_NAME: nat := 1
  const CHANNEL_BIT: nat := 3
  const CHANNEL_INDEX_UNIT: nat := 4
  const CHANNEL_INDEX_COMMENT_START: nat := 6
  const CHANNEL_INDEX_COMMENT_END: nat := 8
  /** The fixed part of a channel record; the strings follow it. */
  const CHANNEL_FIXED: nat := 10

  function ChannelFields(): (r: seq<Field>)
    ensures Tiles(r, CHANNEL_FIXED) && |r| == 6
    ensures r[0].offset == CHANNEL_INDEX && r[1].offset == CHANNEL_INDEX_NAME
    ensures r[2].offset == CHANNEL_BIT && r[3].offset == CHANNEL_INDEX_UNIT
    ensures r[4].offset == CHANNEL_INDEX_COMMENT_START && r[5].offset == CHANNEL_INDEX_COMMENT_END
  {
    [Field(0, 1), Field(1, 2), Field(3, 1), Field(4, 2), Field(6, 2), Field(8, 2)]
  }

  /** The sum of the encoded lengths of text arguments; the first one that is
      neither `str` nor `bytes` is a `TypeError`. */
  function TextsLen(vs: seq<Value>): (r: Result<nat>)
    ensures r.Ok? <==> forall i | 0 <= i < |vs| :: vs[i].Str? || vs[i].Bytes?
    ensures r.Err? ==> r.error == TypeError
  {
    if |vs| == 0 then Ok(0)
    else
      var n :- TextLen(vs[0]);
      var m :- TextsLen(vs[1..]);
      Ok(n + m)
  }

  /** `channel_struct.lenplan(name, unit, comment)`. */
  function ChannelLenplan(name: Value, unit: Value, comment: Value): (r: Result<nat>)
    ensures r.Ok? <==> TextsLen([name, unit, comment]).Ok?
    ensures r.Ok? ==> r.value == CHANNEL_FIXED + TextsLen([name, unit, comment]).value
  {
    var n :- TextsLen([name, unit, comment]);
    Ok(CHANNEL_FIXED + n)
  }

  // ---- file_struct

  const FILE_INDEX: nat := 0
  const FILE_INDEX_NAME_START: nat := 1
  const FILE_INDEX_NAME_END: nat := 3
  const FILE_FIDX_START: nat := 5
  const FILE_FIDX_END: nat := 13
  const FILE_AIDX_START: nat := 21
  const FILE_AIDX_END: nat := 29
  /** The fixed part of a file record: `aidx_end` offset plus its 8 bytes. */
  const FILE_FIXED: nat := 37

  function FileFields(): (r: seq<Field>)
    ensures Tiles(r, FILE_FIXED) && |r| == 7
    ensures r[6].offset == FILE_AIDX_END && r[6].End() == FILE_FIXED
  {
    [Field(0, 1), Field(1, 2), Field(3, 2), Field(5, 8), Field(13, 8), Field(21, 8), Field(29, 8)]
  }

  /** `file_struct.lenplan(name)`. */
  function FileLenplan(name: Value): (r: Result<nat>)
    ensures r.Ok? <==> name.Str? || name.Bytes?
    ensures r.Ok? ==> r.value == FILE_FIXED + TextLen(name).value
  {
    var n :- TextLen(name);
    Ok(FILE_FIXED + n)
  }

  // ---- info_struct

  const INFO_INDEX_START: nat := 0
  const INFO_INDEX_END: nat := 2
  const INFO_INDEX_DESCRIPTION: nat := 4
  const INFO_INDEX_CHANNELS: nat := 6
  const INFO_INDEX_FILE_START: nat := 8
  const INFO_INDEX_FILE_END: nat := 10
  const INFO_FS: nat := 12
  const INFO_NUM_CHANNELS: nat := 16
  const INFO_NUM_FILES: nat := 18
  const INFO_NUM_FRAMES: nat := 20
  const INFO_NUM_ANNOTATIONS: nat := 28
  const INFO_NUM_METAS: nat := 36
  /** The fixed part of the INFO header: `num_metas` offset plus 8. */
  const INFO_FIXED: nat := 44

  function InfoFields(): (r: seq<Field>)
    ensures Tiles(r, INFO_FIXED) && |r| == 12
    ensures r[11].offset == INFO_NUM_METAS
  {
    [Field(0, 2), Field(2, 2), Field(4, 2), Field(6, 2), Field(8, 2), Field(10, 2),
     Field(12, 4), Field(16, 2), Field(18, 2), Field(20, 8), Field(28, 8), Field(36, 8)]
  }

  /** The arguments of one channel in `info_struct.lenplan`. */
  datatype ChannelArgs = ChannelArgs(name: Value, unit: Value, comment: Value)

  /** Each channel's record length plus its 4-byte jump-table entry. */
  function ChannelsLen(chans: seq<ChannelArgs>): (r: Result<nat>)
    ensures r.Ok? <==> forall i | 0 <= i < |chans| ::
      ChannelLenplan(chans[i].name, chans[i].unit, chans[i].comment).Ok?
  {
    if |chans| == 0 then Ok(0)
    else
      var n :- ChannelLenplan(chans[0].name, chans[0].unit, chans[0].comment);
      var m :- ChannelsLen(chans[1..]);
      Ok(4 + n + m)
  }

  /** Each file's record length plus its 4-byte jump-table entry. */
  function FilesLen(names: seq<Value>): (r: Result<nat>)
    ensures r.Ok? <==> forall i | 0 <= i < |names| :: names[i].Str? || names[i].Bytes?
  {
    if |names| == 0 then Ok(0)
    else
      var n :- FileLenplan(names[0]);
      var m :- FilesLen(names[1..]);
      Ok(4 + n + m)
  }

  /** `info_struct.lenplan(start, end, description, chans, files)`. */
  function InfoLenplan(start: Value, end: Value, description: Value,
                       chans: seq<ChannelArgs>, files: seq<Value>): (r: Result<nat>)
    ensures r.Ok? <==>
      TextsLen([start, end, description]).Ok? && ChannelsLen(chans).Ok? && FilesLen(files).Ok?
    ensures r.Ok? ==> r.value >= INFO_FIXED + 4 * |chans| + CHANNEL_FIXED * |chans| + 4 * |files| + FILE_FIXED * |files|
    ensures r.Ok? ==>
              r.value == INFO_FIXED + TextsLen([start, end, description]).value
                         + ChannelsLen(chans).value + FilesLen(files).value
  {
    var s :- TextsLen([start, end, description]);
    var c :- ChannelsLen(chans);
    var f :- FilesLen(files);
    ChannelsLenBound(chans);
    FilesLenBound(files);
    Ok(INFO_FIXED + s + c + f)
  }

  lemma {:induction false} ChannelsLenBound(chans: seq<ChannelArgs>)
    requires ChannelsLen(chans).Ok?
    decreases |chans|
    ensures ChannelsLen(chans).value >= (4 + CHANNEL_FIXED) * |chans|
  {
    if |chans| > 0 {
      ChannelsLenBound(chans[1..]);
    }
  }

  lemma {:induction false} FilesLenBound(names: seq<Value>)
    requires FilesLen(names).Ok?
    decreases |names|
    ensures FilesLen(names).value >= (4 + FILE_FIXED) * |names|
  {
    if |names| > 0 {
      FilesLenBound(names[1..]);
    }
  }

  /** Adding a channel adds its record length and its 4-byte jump-table
      entry to the channel total, and fails exactly when its lenplan does. */
  lemma {:induction false} ChannelsLenSnoc(chans: seq<ChannelArgs>, c: ChannelArgs)
    decreases |chans|
    ensures ChannelsLen(chans + [c]).Ok? <==>
      ChannelsLen(chans).Ok? && ChannelLenplan(c.name, c.unit, c.comment).Ok?
    ensures ChannelsLen(chans + [c]).Ok? ==>
      ChannelsLen(chans + [c]).value == ChannelsLen(chans).value + 4 + ChannelLenplan(c.name, c.unit, c.comment).value
  {
    if |chans| == 0 {
      assert chans + [c] == [c];
      assert [c][1..] == [];
    } else {
      assert (chans + [c])[0] == chans[0];
      assert (chans + [c])[1..] == chans[1..] + [c];
      ChannelsLenSnoc(chans[1..], c);
    }
  }

  /** Adding a file adds its record length and its 4-byte jump-table entry
      to the file total, and fails exactly when its lenplan does. */
  lemma {:induction false} FilesLenSnoc(names: seq<Value>, name: Value)
    decreases |names|
    ensures FilesLen(names + [name]).Ok? <==> FilesLen(names).Ok? && FileLenplan(name).Ok?
    ensures FilesLen(names + [name]).Ok? ==>
      FilesLen(names + [name]).value == FilesLen(names).value + 4 + FileLenplan(name).value
  {
    if |names| == 0 {
      assert names + [name] == [name];
      assert [name][1..] == [];
    } else {
      assert (names + [name])[0] == names[0];
      assert (names + [name])[1..] == names[1..] + [name];
      FilesLenSnoc(names[1..], name);
    }
  }

  /** With no channels, no files and empty strings the INFO plan is the 44
      fixed bytes, where the INFO header's string area starts. */
  lemma InfoLenplanNoEntries()
    ensures InfoLenplan(Str(""), Str(""), Str(""), [], []) == Ok(INFO_FIXED)
  {
    var e := Str("");
    var vs := [e, e, e];
    assert vs[1..] == [e, e];
    assert vs[1..][1..] == [e];
    assert vs[1..][1..][1..] == [];
    assert TextsLen([e]) == Ok(0);
    assert TextsLen([e, e]) == Ok(0);
    assert TextsLen(vs) == Ok(0);
    assert ChannelsLen([]) == Ok(0) && FilesLen([]) == Ok(0);
  }

  /** Planning one more channel adds exactly that channel's record and its
      jump-table entry to the INFO plan. */
  lemma InfoLenplanAddChannel(start: Value, end: Value, description: Value,
                              chans: seq<ChannelArgs>, files: seq<Value>, c: ChannelArgs)
    ensures InfoLenplan(start, end, description, chans + [c], files).Ok? <==>
      InfoLenplan(start, end, description, chans, files).Ok? && ChannelLenplan(c.name, c.unit, c.comment).Ok?
    ensures InfoLenplan(start, end, description, chans + [c], files).Ok? ==>
      InfoLenplan(start, end, description, chans + [c], files).value ==
        InfoLenplan(start, end, description, chans, files).value + 4 + ChannelLenplan(c.name, c.unit, c.comment).value
  {
    ChannelsLenSnoc(chans, c);
  }

  /** Planning one more file adds exactly that file's record and its
      jump-table entry to the INFO plan. */
  lemma InfoLenplanAddFile(start: Value, end: Value, description: Value,
                           chans: seq<ChannelArgs>, files: seq<Value>, name: Value)
    ensures InfoLenplan(start, end, description, chans, files + [name]).Ok? <==>
      InfoLenplan(start, end, description, chans, files).Ok? && FileLenplan(name).Ok?
    ensures InfoLenplan(start, end, description, chans, files + [name]).Ok? ==>
      InfoLenplan(start, end, description, chans, files + [name]).value ==
        InfoLenplan(start, end, description, chans, files).value + 4 + FileLenplan(name).value
  {
    FilesLenSnoc(files, name);
  }

  // ---- wave_struct

  /** The 32-byte (256-bit) channel-presence bitmap at offset 0. */
  const WAVE_CHANNELS: nat := 0
  const WAVE_CHANNELS_LEN: nat := 32
  const WAVE_FIDX_START: nat := 32
  const WAVE_FIDX_END: nat := 40
  /** Where the frame records start. */
  const WAVE_RECORDS: nat := 48

  function WaveFields(): (r: seq<Field>)
    ensures Tiles(r, WAVE_RECORDS)
  {
    [Field(0, 32), Field(32, 8), Field(40, 8)]
  }

  /** `wave_struct.lenplan(record_size, num_records)`, which adds the record
      size and the record count. */
  function WaveLenplan(recordSize: int, numRecords: int): int
  {
    WAVE_RECORDS + recordSize + numRecords
  }

  /** The wave size plan is the header plus `num_records` records of
      `record_size` bytes only when `record_size + num_records` happens to
      equal `record_size * num_records`: 3 records of 2 bytes plan 53 bytes
      where they occupy 54. */
  lemma WaveLenplanIsNotRecordArea(recordSize: nat, numRecords: nat)
    ensures WaveLenplan(recordSize, numRecords) == WAVE_RECORDS + recordSize * numRecords
      <==> recordSize + numRecords == recordSize * numRecords
    ensures WaveLenplan(2, 3) == 53 && WAVE_RECORDS + 2 * 3 == 54
  {
  }

  // ---- ann_struct and its C/M/D variants

  const ANN_TYPE: nat := 0
  const ANN_FIDX_START: nat := 1
  const ANN_FIDX_END: nat := 9
  /** The common prefix of every annotation record; the null annotation is just this. */
  const ANN_FIXED: nat := 17
  const ANN_C_INDEX_COMMENT_START: nat := 17
  const ANN_C_INDEX_COMMENT_END: nat := 19
  const ANN_C_FIXED: nat := 21
  const ANN_MARKER: nat := 17
  const ANN_M_LEN: nat := 21
  const ANN_D_VALUE: nat := 21
  const ANN_D_LEN: nat := 29

  function AnnFields(): (r: seq<Field>)
    ensures Tiles(r, ANN_FIXED) && |r| == 3
  {
    [Field(0, 1), Field(1, 8), Field(9, 8)]
  }

  function AnnCFields(): (r: seq<Field>)
    ensures Tiles(r, ANN_C_FIXED) && |r| == 5
    ensures r[..3] == AnnFields()
  {
    AnnFields() + [Field(17, 2), Field(19, 2)]
  }

  function AnnMFields(): (r: seq<Field>)
    ensures Tiles(r, ANN_M_LEN) && |r| == 4
    ensures r[..3] == AnnFields()
  {
    AnnFields() + [Field(17, 4)]
  }

  function AnnDFields(): (r: seq<Field>)
    ensures Tiles(r, ANN_D_LEN) && |r| == 5
    ensures r[..4] == AnnMFields()
  {
    AnnMFields() + [Field(21, 8)]
  }

  /** `ann_struct.lenplan(typ, **kargs)`: `comment` is the keyword argument,
      `None` when it was not passed. */
  function AnnLenplan(typ: string, comment: Option<Value>): (r: Result<nat>)
    ensures typ == "\0" ==> r == Ok(ANN_FIXED)
    ensures typ == "C" && comment.None? ==> r == Err(KeyError)
    ensures typ == "C" && comment.Some? ==>
      (r.Ok? <==> comment.value.Str? || comment.value.Bytes?) &&
      (r.Ok? ==> r.value == ANN_C_FIXED + TextLen(comment.value).value) &&
      (r.Err? ==> r.error == TypeError)
    ensures typ == "D" ==> r == Ok(ANN_D_LEN)
    ensures typ == "M" ==> r == Ok(ANN_M_LEN)
    ensures typ !in ["\0", "C", "D", "M"] ==> r == Err(ValueError)
  {
    if typ == "\0" then Ok(ANN_FIXED)
    else if typ == "C" then
      if comment.None? then Err(KeyError)
      else
        var n :- TextLen(comment.value);
        Ok(ANN_C_FIXED + n)
    else if typ == "D" then Ok(ANN_D_LEN)
    else if typ == "M" then Ok(ANN_M_LEN)
    else Err(ValueError)
  }

  // ---- annos_struct (the WIFFANNO header)

  const ANNOS_AIDX_START: nat := 0
  const ANNOS_AIDX_END: nat := 8
  const ANNOS_FIDX_FIRST: nat := 16
  const ANNOS_FIDX_LAST: nat := 24
  const ANNOS_NUM_ANNOTATIONS: nat := 32
  const ANNOS_INDEX_ANNOTATIONS: nat := 36
  /** The fixed part of the WIFFANNO header: the u16 at 36 plus 2. */
  const ANNOS_FIXED: nat := 38

  function AnnosFields(): (r: seq<Field>)
    ensures Tiles(r, ANNOS_FIXED) && |r| == 6
    ensures r[5].offset == ANNOS_INDEX_ANNOTATIONS
  {
    [Field(0, 8), Field(8, 8), Field(16, 8), Field(24, 8), Field(32, 4), Field(36, 2)]
  }

  // ---- meta_data_struct and meta_struct

  /** Bytes per element of the numeric meta arrays, by type code 1..6. */
  function ElementWidth(typ: int): (r: nat)
    requires 1 <= typ <= 6
    ensures r in {1, 2, 4, 8}
  {
    match typ
    case 1 => 1
    case 2 => 2
    case 3 => 4
    case 4 => 8
    case 5 => 4
    case 6 => 8
  }

  /** `sum([len(_) for _ in strs])`. */
  function LensSum(vs: seq<Value>): (r: Result<nat>)
    ensures r.Ok? <==> forall i | 0 <= i < |vs| :: PyLen(vs[i]).Ok?
  {
    if |vs| == 0 then Ok(0)
    else
      var n :- PyLen(vs[0]);
      var m :- LensSum(vs[1..]);
      Ok(n + m)
  }

  /** `meta_data_str_struct.lenplan(strs)`: 2, plus 4 per string, plus the
      strings' lengths. */
  function MetaStrsLenplan(strs: Value): (r: Result<nat>)
    ensures (strs.Tuple? || strs.List?) && LensSum(strs.items).Ok? ==>
      r == Ok(2 + 4 * |strs.items| + LensSum(strs.items).value)
  {
    match strs
    case Tuple(items) => var n :- LensSum(items); Ok(2 + 4 * |items| + n)
    case List(items) => var n :- LensSum(items); Ok(2 + 4 * |items| + n)
    // Iterating a str gives one-character strings; iterating bytes gives
    // ints, which have no length.
    case Str(s) => Ok(2 + 4 * |s| + |s|)
    case Bytes(bs) => if |bs| == 0 then Ok(2) else Err(TypeError)
    case _ => Err(TypeError)
  }

  /** `meta_data_struct.lenplan(typ, data)`: `2 + w * len(data)` for the
      numeric types, the string plan for type 0, `ValueError` for any other code. */
  function MetaDataLenplan(typ: int, data: Value): (r: Result<nat>)
    ensures typ < 0 || typ > 6 ==> r == Err(ValueError)
    ensures 1 <= typ <= 6 && PyLen(data).Ok? ==> r == Ok(2 + ElementWidth(typ) * PyLen(data).value)
    ensures 1 <= typ <= 6 && PyLen(data).Err? ==> r == Err(TypeError)
  {
    if typ == 0 then MetaStrsLenplan(data)
    else if 1 <= typ <= 6 then
      var n :- PyLen(data);
      Ok(2 + ElementWidth(typ) * n)
    else Err(ValueError)
  }

  const META_INDEX_KEY_START: nat := 0
  const META_INDEX_KEY_END: nat := 2
  const META_INDEX_DATA_START: nat := 4
  const META_INDEX_DATA_END: nat := 6
  const META_LEVEL: nat := 7
  const META_LEVEL_INDEX: nat := 8
  /** The fixed part `meta_struct.lenplan` reserves before the key. */
  const META_FIXED: nat := 16

  function MetaFields(): (r: seq<Field>)
  {
    [Field(0, 2), Field(2, 2), Field(4, 2), Field(6, 2), Field(7, 1), Field(8, 8)]
  }

  /** The meta record's fields do not tile: `level` at 7 lies inside the
      2-byte `index_data_end` at 6, although the last field still ends at 16. */
  lemma MetaFieldsOverlap()
    ensures !Tiles(MetaFields(), META_FIXED)
    ensures MetaFields()[3].offset < MetaFields()[4].offset < MetaFields()[3].End()
    ensures MetaFields()[5].End() == META_FIXED
  {
    var fs := MetaFields();
    assert fs[3] == Field(6, 2) && fs[4] == Field(7, 1) && fs[5] == Field(8, 8);
    assert fs[3 + 1].offset != fs[3].End();
  }

  /** `meta_struct.lenplan(key, data_type, data)`: 16, plus `len(key)`, plus
      the data plan. */
  function MetaLenplan(key: Value, dataType: int, data: Value): (r: Result<nat>)
    ensures r.Ok? <==> PyLen(key).Ok? && MetaDataLenplan(dataType, data).Ok?
    ensures r.Ok? ==> r.value == META_FIXED + PyLen(key).value + MetaDataLenplan(dataType, data).value
  {
    var k :- PyLen(key);
    var d :- MetaDataLenplan(dataType, data);
    Ok(META_FIXED + k + d)
  }

  // ---- metas_struct (the WIFFMETA header)

  const METAS_NUM_METAS: nat := 0
  const METAS_INDEX_METAS: nat := 4
  /** The fixed part of the WIFFMETA header: the u16 at 4 plus 2. */
  const METAS_FIXED: nat := 6

  function MetasFields(): (r: seq<Field>)
    ensures Tiles(r, METAS_FIXED)
  {
    [Field(0, 4), Field(4, 2)]
  }

  // ---- LEVEL and TYPE

  datatype Level = RECORDING | CHANNEL | FILE | FRAME | ANNOTATION | META

  function LevelValue(l: Level): (r: nat)
    ensures r <= 5
  {
    match l
    case RECORDING => 0
    case CHANNEL => 1
    case FILE => 2
    case FRAME => 3
    case ANNOTATION => 4
    case META => 5
  }

  /** `LEVEL(val)`: `ValueError` for a value no member has. */
  function LevelOf(v: int): (r: Result<Level>)
    ensures r.Ok? <==> 0 <= v <= 5
    ensures r.Ok? ==> LevelValue(r.value) == v
    ensures r.Err? ==> r.error == ValueError
  {
    if v == 0 then Ok(RECORDING)
    else if v == 1 then Ok(CHANNEL)
    else if v == 2 then Ok(FILE)
    else if v == 3 then Ok(FRAME)
    else if v == 4 then Ok(ANNOTATION)
    else if v == 5 then Ok(META)
    else Err(ValueError)
  }

  function LevelName(l: Level): string
  {
    match l
    case RECORDING => "RECORDING"
    case CHANNEL => "CHANNEL"
    case FILE => "FILE"
    case FRAME => "FRAME"
    case ANNOTATION => "ANNOTATION"
    case META => "META"
  }

  /** `LEVEL[name]`: `KeyError` for a name no member has. */
  function LevelNamed(s: string): (r: Result<Level>)
    ensures r.Ok? ==> LevelName(r.value) == s
    ensures r.Err? ==> r.error == KeyError
  {
    if s == "RECORDING" then Ok(RECORDING)
    else if s == "CHANNEL" then Ok(CHANNEL)
    else if s == "FILE" then Ok(FILE)
    else if s == "FRAME" then Ok(FRAME)
    else if s == "ANNOTATION" then Ok(ANNOTATION)
    else if s == "META" then Ok(META)
    else Err(KeyError)
  }

  /** `metas_struct.level_to_string(val)`. */
  function LevelToString(v: int): Result<string>
  {
    var l :- LevelOf(v);
    Ok(LevelName(l))
  }

  /** `metas_struct.level_from_string(val)`: looked up after `upper()`. */
  function LevelFromString(s: string): Result<int>
  {
    var l :- LevelNamed(Upper(s));
    Ok(LevelValue(l))
  }

  lemma LevelNameUpper(l: Level)
    ensures Upper(LevelName(l)) == LevelName(l)
  {
    var n := LevelName(l);
    forall i | 0 <= i < |n| ensures UpperChar(n[i]) == n[i] {
    }
  }

  lemma {:induction false} LevelNamedSpec(l: Level)
    ensures LevelNamed(LevelName(l)) == Ok(l)
  {
    match l
    case RECORDING =>
    case CHANNEL =>
    case FILE =>
    case FRAME =>
    case ANNOTATION =>
    case META =>
  }

  /** `level_from_string` inverts `level_to_string`, and a name it accepts
      is the upper-case form of the name `level_to_string` gives back. */
  lemma LevelStringRoundTrip(v: int, s: string)
    ensures LevelToString(v).Ok? ==> LevelFromString(LevelToString(v).value) == Ok(v)
    ensures LevelFromString(s).Ok? ==> LevelToString(LevelFromString(s).value) == Ok(Upper(s))
  {
    if LevelToString(v).Ok? {
      var l := LevelOf(v).value;
      LevelNameUpper(l);
      LevelNamedSpec(l);
    }
    if LevelFromString(s).Ok? {
      var l := LevelNamed(Upper(s)).value;
      assert LevelOf(LevelValue(l)) == Ok(l) by {
        match l
        case RECORDING =>
        case CHANNEL =>
        case FILE =>
        case FRAME =>
        case ANNOTATION =>
        case META =>
      }
    }
  }

  /** `level_from_string` ignores case: the lower-case, upper-case and given
      forms of a name all give the same result. */
  lemma LevelFromStringIgnoresCase(s: string)
    ensures LevelFromString(Lower(s)) == LevelFromString(s)
    ensures LevelFromString(Upper(s)) == LevelFromString(s)
  {
    assert Upper(Lower(s)) == Upper(s);
    assert Upper(Upper(s)) == Upper(s);
  }

  datatype MetaType = STRING | INT8 | INT16 | INT32 | INT64 | FLOAT32 | FLOAT64

  function TypeValue(t: MetaType): (r: nat)
    ensures r <= 6
  {
    match t
    case STRING => 0
    case INT8 => 1
    case INT16 => 2
    case INT32 => 3
    case INT64 => 4
    case FLOAT32 => 5
    case FLOAT64 => 6
  }

  /** `TYPE(val)`: `ValueError` for a value no member has. */
  function TypeOf(v: int): (r: Result<MetaType>)
    ensures r.Ok? <==> 0 <= v <= 6
    ensures r.Ok? ==> TypeValue(r.value) == v
    ensures r.Err? ==> r.error == ValueError
  {
    if v == 0 then Ok(STRING)
    else if v == 1 then Ok(INT8)
    else if v == 2 then Ok(INT16)
    else if v == 3 then Ok(INT32)
    else if v == 4 then Ok(INT64)
    else if v == 5 then Ok(FLOAT32)
    else if v == 6 then Ok(FLOAT64)
    else Err(ValueError)
  }

  function TypeName(t: MetaType): string
  {
    match t
    case STRING => "STRING"
    case INT8 => "INT8"
    case INT16 => "INT16"
    case INT32 => "INT32"
    case INT64 => "INT64"
    case FLOAT32 => "FLOAT32"
    case FLOAT64 => "FLOAT64"
  }

  /** `TYPE[name]`: `KeyError` for a name no member has. */
  function TypeNamed(s: string): (r: Result<MetaType>)
    ensures r.Ok? ==> TypeName(r.value) == s
    ensures r.Err? ==> r.error == KeyError
  {
    if s == "STRING" then Ok(STRING)
    else if s == "INT8" then Ok(INT8)
    else if s == "INT16" then Ok(INT16)
    else if s == "INT32" then Ok(INT32)
    else if s == "INT64" then Ok(INT64)
    else if s == "FLOAT32" then Ok(FLOAT32)
    else if s == "FLOAT64" then Ok(FLOAT64)
    else Err(KeyError)
  }

  /** `metas_struct.type_to_string(val)`. */
  function TypeToString(v: int): Result<string>
  {
    var t :- TypeOf(v);
    Ok(TypeName(t))
  }

  /** `metas_struct.type_from_string(val)`: looked up as given. */
  function TypeFromString(s: string): Result<int>
  {
    var t :- TypeNamed(s);
    Ok(TypeValue(t))
  }

  /** `type_from_string` inverts `type_to_string` and accepts exactly the
      names it produces; unlike the level lookup it is case-sensitive. */
  lemma TypeStringRoundTrip(v: int, s: string)
    ensures TypeToString(v).Ok? ==> TypeFromString(TypeToString(v).value) == Ok(v)
    ensures TypeFromString(s).Ok? ==> TypeToString(TypeFromString(s).value) == Ok(s)
    ensures TypeFromString("int8") == Err(KeyError)
  {
    if TypeToString(v).Ok? {
      var t := TypeOf(v).value;
      match t
      case STRING =>
      case INT8 =>
      case INT16 =>
      case INT32 =>
      case INT64 =>
      case FLOAT32 =>
      case FLOAT64 =>
    }
    if TypeFromString(s).Ok? {
      var t := TypeNamed(s).value;
      match t
      case STRING =>
      case INT8 =>
      case INT16 =>
      case INT32 =>
      case INT64 =>
      case FLOAT32 =>
      case FLOAT64 =>
    }
  }
}
