/** The WIFFANNO chunk of `wiff/wiffanno.py` at record level: the header's
    annotation and frame ranges, the annotation jump table and records, and
    the INFO fields an added annotation keeps in step (the recording-wide
    count and the file entry's ranges). */
module Anno {
  import opened Bytes
  import opened Errors
  import opened Py
  import opened Structs
  import opened JumpTable
  import Util
  import Info
  import Chunk
  import Wave

  // ---- initchunk and initheader

  /** The `initchunk(compression)` shared by the annotation and meta chunks:
      the backing file grows by one page, the chunk spans two pages (one for
      the jump table, one for records) and attribute byte 0 carries the
      compression tag. The file has already grown when an unknown
      compression raises `ValueError`; as with every failure here, the model
      keeps nothing of a call that raises. */
  function TwoPageChunk(file: Util.Store, magic: string, compression: Option<string>): (r: Result<(Util.Store, Wave.ChunkInit)>)
  {
    var grown :- Util.ResizeAdd(file, Util.PAGE);
    var tag :- Wave.CompressionTag(compression);
    Ok((grown, Wave.ChunkInit(magic, 2 * Util.PAGE, [tag, 0, 0, 0, 0, 0, 0, 0])))
  }

  /** The two-page `initchunk` succeeds exactly for a known compression;
      the file is one page longer with its old bytes in place, and the
      attributes read back as the tag followed by seven zeros. */
  lemma TwoPageChunkSpec(file: Util.Store, magic: string, compression: Option<string>)
    ensures TwoPageChunk(file, magic, compression).Ok? <==> Wave.CompressionTag(compression).Ok?
    ensures TwoPageChunk(file, magic, compression).Err? ==> TwoPageChunk(file, magic, compression).error == ValueError
    ensures TwoPageChunk(file, magic, compression).Ok? ==>
      var (grown, c) := TwoPageChunk(file, magic, compression).value;
      && grown.Size() == file.Size() + 4096
      && grown.data[..file.Size()] == file.data
      && c.magic == magic && c.size == 8192
      && Chunk.AttributesField(c.attrs).Ok?
      && Chunk.Attributes(Chunk.AttributesField(c.attrs).value) == [Wave.CompressionTag(compression).value, 0, 0, 0, 0, 0, 0, 0]
  {
    if TwoPageChunk(file, magic, compression).Ok? {
      var (grown, c) := TwoPageChunk(file, magic, compression).value;
      assert grown.data[..file.Size()] == file.data;
      Chunk.AttributesRoundTrip(c.attrs);
    }
  }

  /** `WIFFANNO.initchunk(compression)`. */
  function InitChunk(file: Util.Store, compression: Option<string>): Result<(Util.Store, Wave.ChunkInit)>
  {
    TwoPageChunk(file, "WIFFANNO", compression)
  }

  /** The payload that follows the 17 common bytes of a record: a comment
      with its two relative offsets, a 32-bit marker, or a marker and a
      64-bit value. */
  datatype Payload =
    | Comment(commentStart: nat, commentEnd: nat, text: Value)
    | Marker(marker: nat)
    | MarkerValue(marker: nat, value: nat)

  /** One annotation record: its type letter and the frame interval it marks. */
  datatype Annotation = Annotation(typ: string, fidxStart: nat, fidxEnd: nat, payload: Payload)

  /** The WIFFANNO chunk: its size (from the chunk header) and its body. The
      records are keyed by annotation number, as `annotations[ann_no]`
      addresses them. */
  datatype AnnoBlock = AnnoBlock(
    chunkSize: nat,
    aidxStart: nat, aidxEnd: nat, fidxFirst: nat, fidxLast: nat,
    numAnnotations: nat, indexAnnotations: nat,
    table: seq<Entry>, annotations: map<nat, Annotation>)

  /** An annotation segment: the INFO chunk, this chunk and the name of the
      file that holds it. */
  datatype Segment = Segment(info: Info.InfoBlock, anno: AnnoBlock, fname: string)

  /** Where the first record starts, relative to the jump table: at the
      second page of the chunk, that is 4096 less the table's offset in the
      body (38) and the chunk header (24). */
  const ANN_TABLE_FIRST_START: nat := Util.PAGE - ANNOS_FIXED - Chunk.HEADER_LEN

  /** `initheader()`: every range and count is zero and the jump table
      follows the 38 fixed header bytes. */
  function InitHeader(a: AnnoBlock): (r: AnnoBlock)
    ensures r.numAnnotations == 0 && r.indexAnnotations == ANNOS_FIXED
    ensures r.table == a.table && r.annotations == a.annotations && r.chunkSize == a.chunkSize
  {
    a.(aidxStart := 0, aidxEnd := 0, fidxFirst := 0, fidxLast := 0, numAnnotations := 0,
       indexAnnotations := ANNOS_FIXED)
  }

  // ---- the record invariants

  /** The bytes a record occupies: 21 plus the comment's encoded length,
      21 for a marker, 29 for a marker with a value. */
  function RecordLen(x: Annotation): Result<nat>
  {
    match x.payload
    case Comment(_, _, t) =>
      var n :- TextLen(t);
      Ok(ANN_C_FIXED + n)
    case Marker(_) => Ok(ANN_M_LEN)
    case MarkerValue(_, _) => Ok(ANN_D_LEN)
  }

  /** The jump table and the records agree: one entry per annotation, packed
      from the second page, each as long as its record. */
  ghost predicate Indexed(a: AnnoBlock)
  {
    TableMatches(a.table, a.annotations, a.numAnnotations)
  }

  ghost predicate TableMatches(table: seq<Entry>, anns: map<nat, Annotation>, n: nat)
  {
    && |table| == n
    && NumberedUpTo(anns, n)
    && Contiguous(table, ANN_TABLE_FIRST_START)
    && EntriesMatch(table, anns)
  }

  /** The records are numbered `0 .. n-1`. */
  ghost predicate NumberedUpTo(anns: map<nat, Annotation>, n: nat)
  {
    forall i: nat :: i in anns <==> i < n
  }

  /** Every entry has a record as long as the entry. */
  predicate EntriesMatch(table: seq<Entry>, anns: map<nat, Annotation>)
  {
    forall i | 0 <= i < |table| :: i in anns && RecordLen(anns[i]) == Ok(table[i].end - table[i].start)
  }

  /** Storing a record under the next number keeps the numbering dense. */
  lemma NumberedNext(anns: map<nat, Annotation>, n: nat, rec: Annotation)
    requires NumberedUpTo(anns, n)
    ensures NumberedUpTo(anns[n := rec], n + 1)
  {
  }

  /** Appending an entry and storing the record it sizes under its index
      keeps every entry matched. */
  lemma EntriesMatchAppend(table: seq<Entry>, anns: map<nat, Annotation>, ln: nat, rec: Annotation)
    requires EntriesMatch(table, anns) && RecordLen(rec) == Ok(ln)
    ensures EntriesMatch(Append(table, ln, ANN_TABLE_FIRST_START), anns[|table| := rec])
  {
    var t := Append(table, ln, ANN_TABLE_FIRST_START);
    var m := anns[|table| := rec];
    forall i | 0 <= i < |t|
      ensures i in m && RecordLen(m[i]) == Ok(t[i].end - t[i].start)
    {
      if i < |table| {
        assert t[i] == table[i] && m[i] == anns[i];
      }
    }
  }

  /** Appending an entry and storing its record under the next number keeps
      the table and the records in agreement. */
  lemma TableMatchesAppend(table: seq<Entry>, anns: map<nat, Annotation>, n: nat, ln: nat, rec: Annotation)
    requires TableMatches(table, anns, n) && RecordLen(rec) == Ok(ln)
    ensures TableMatches(Append(table, ln, ANN_TABLE_FIRST_START), anns[n := rec], n + 1)
  {
    NumberedNext(anns, n, rec);
    AppendContiguous(table, ln, ANN_TABLE_FIRST_START);
    EntriesMatchAppend(table, anns, ln, rec);
  }

  /** The header's ranges summarise the records: annotation numbers run
      from 0 to the count, and the frame range is the smallest start and
      the largest end among the records. */
  predicate Spans(a: AnnoBlock)
  {
    a.numAnnotations > 0 ==>
      && a.aidxStart == 0 && a.aidxEnd == a.numAnnotations
      && (forall i | i in a.annotations :: a.fidxFirst <= a.annotations[i].fidxStart && a.annotations[i].fidxEnd <= a.fidxLast)
      && (exists i | i in a.annotations :: a.annotations[i].fidxStart == a.fidxFirst)
      && (exists i | i in a.annotations :: a.annotations[i].fidxEnd == a.fidxLast)
  }

  ghost predicate WellFormed(a: AnnoBlock)
  {
    Indexed(a) && Spans(a)
  }

  /** A freshly initialised header over an empty table is well formed. */
  lemma InitHeaderWellFormed(a: AnnoBlock)
    requires a.table == [] && a.annotations == map[]
    ensures WellFormed(InitHeader(a))
  {
    var r := InitHeader(a);
    assert forall i: nat :: i in r.annotations <==> i < r.numAnnotations;
  }

  // ---- add_annotation

  /** The keyword arguments of `add_annotation`; `None` when not passed. */
  datatype Params = Params(comment: Option<Value>, marker: Option<Value>, value: Option<Value>)

  /** The argument check: `C` needs a comment, `M` a marker, `D` a marker
      and a value (`ValueError`), and any other type is a `KeyError`. */
  function Validate(typ: string, p: Params): Outcome
  {
    if typ == "C" then Need(p.comment.Some?, ValueError)
    else if typ == "M" then Need(p.marker.Some?, ValueError)
    else if typ == "D" then
      if p.marker.None? then Fail(ValueError) else Need(p.value.Some?, ValueError)
    else Fail(KeyError)
  }

  /** A marker given as text: `struct.unpack("<I", s.encode('ascii'))`, so a
      non-ASCII string is a `UnicodeEncodeError` and one that is not four
      characters long a `struct.error`. Other markers pass unchanged. */
  function MarkerCode(m: Option<Value>): (r: Result<Option<Value>>)
    ensures r.Ok? && !(m.Some? && m.value.Str?) ==> r.value == m
  {
    match m
    case Some(Str(s)) =>
      if !IsAscii(s) then Err(UnicodeEncodeError)
      else if |s| != 4 then Err(StructError)
      else Ok(Some(Int(FromLE(Ascii(s)))))
    case _ => Ok(m)
  }

  /** Storing an integer argument into an unsigned field of `w` bytes: a
      missing argument is a `KeyError`, a non-integer or out-of-range one a
      `struct.error`. */
  function FieldValue(v: Option<Value>, w: nat): (r: Result<nat>)
    ensures r.Ok? <==> v.Some? && IsInt(v.value) && Fits(IntOf(v.value), w)
    ensures r.Ok? ==> r.value == IntOf(v.value) && r.value < Pow256(w)
  {
    match v
    case None => Err(KeyError)
    case Some(x) => if IsInt(x) && Fits(IntOf(x), w) then Ok(IntOf(x)) else Err(StructError)
  }

  /** The record `add_annotation` writes: the interval as two u64, then for
      `C` the comment between offset 21 and 21 plus its `len` (a u16 end),
      for `D` the u32 marker and the u64 value, for `M` the marker. */
  function Record(typ: string, span: Util.Span, comment: Option<Value>, marker: Option<Value>, value: Option<Value>): (r: Result<Annotation>)
    ensures r.Ok? ==> r.value.typ == typ && r.value.fidxStart == span.start && r.value.fidxEnd == span.stop
    ensures !Fits(span.start, 8) || !Fits(span.stop, 8) ==> r == Err(StructError)
  {
    if !(Fits(span.start, 8) && Fits(span.stop, 8)) then Err(StructError)
    else if typ == "C" then
      match comment
      case None => Err(KeyError)
      case Some(t) =>
        var n :- PyLen(t);
        :- Need(Fits(ANN_C_FIXED + n, 2), StructError);
        Ok(Annotation(typ, span.start, span.stop, Comment(ANN_C_FIXED, ANN_C_FIXED + n, t)))
    else if typ == "D" then
      var m :- FieldValue(marker, 4);
      var v :- FieldValue(value, 8);
      Ok(Annotation(typ, span.start, span.stop, MarkerValue(m, v)))
    else if typ == "M" then
      var m :- FieldValue(marker, 4);
      Ok(Annotation(typ, span.start, span.stop, Marker(m)))
    else Err(ValueError)
  }

  function Min(a: int, b: int): int { if a <= b then a else b }
  function Max(a: int, b: int): int { if a >= b then a else b }

  /** `add_annotation(typ, fidx, **parms)` up to the INFO lookup: the
      argument check, `twotuplecheck`, the planned length, the marker
      conversion, the interval as two u64 (written into the header for a
      first annotation, into the record otherwise), the record itself and
      the INFO file entry named after this segment's file (`ValueError`
      when there is none). `Commit` does the rest. */
  function AddAnnotation(s: Segment, typ: string, fidx: Value, p: Params): (r: Result<Segment>)
    ensures typ !in ["C", "M", "D"] ==> r == Err(KeyError)
    ensures typ == "C" && p.comment.None? ==> r == Err(ValueError)
    ensures typ in ["M", "D"] && p.marker.None? ==> r == Err(ValueError)
    ensures typ == "D" && p.value.None? ==> r == Err(ValueError)
    ensures Validate(typ, p).Pass? && Util.TwoTupleCheck(fidx).Err? ==> r == Err(Util.TwoTupleCheck(fidx).error)
  {
    if Validate(typ, p).Fail? then Err(Validate(typ, p).error)
    else
      var span :- Util.TwoTupleCheck(fidx);
      var ln :- AnnLenplan(typ, p.comment);
      var marker :- MarkerCode(p.marker);
      :- Need(Fits(span.start, 8) && Fits(span.stop, 8), StructError);
      var rec :- Record(typ, span, p.comment, marker, p.value);
      var k :- Info.GetFileByName(s.info, s.fname);
      Commit(s, ln, rec, k)
  }

  /** The rest of `add_annotation`, once the record of `ln` bytes is built
      and the INFO entry `k` found: the table gains the entry and the record
      goes to number `num_annotations`; a first annotation resets the header
      ranges to its interval, and the frame range then widens to it; both
      counts grow by one (a u32 here, a u64 in INFO) and the file entry takes
      the new annotation end and frame range. */
  function Commit(s: Segment, ln: nat, rec: Annotation, k: nat): (r: Result<Segment>)
    requires k < |s.info.files|
  {
    var a := s.anno;
    var n := a.numAnnotations;
    var first := n == 0;
    var aidxStart := if first then 0 else a.aidxStart;
    :- Need(Fits(aidxStart + n, 8), StructError);
    var lo := Min(if first then rec.fidxStart else a.fidxFirst, rec.fidxStart);
    var hi := Max(if first then rec.fidxEnd else a.fidxLast, rec.fidxEnd);
    :- Need(Fits(n + 1, 4), StructError);
    :- Need(Fits(s.info.numAnnotations + 1, 8), StructError);
    var f := s.info.files[k];
    Ok(Segment(
      s.info.(numAnnotations := s.info.numAnnotations + 1,
              files := s.info.files[k := f.(aidxEnd := n + 1, fidxStart := lo, fidxEnd := hi)]),
      AnnoBlock(a.chunkSize, aidxStart, n + 1, lo, hi, n + 1, a.indexAnnotations,
                Append(a.table, ln, ANN_TABLE_FIRST_START), a.annotations[n := rec]),
      s.fname))
  }

  /** The interval an accepted call marks. */
  function SpanOf(fidx: Value): Util.Span
    requires Util.TwoTupleCheck(fidx).Ok?
  {
    Util.TwoTupleCheck(fidx).value
  }

  /** The record a successful call builds. */
  function NewRecord(typ: string, fidx: Value, p: Params): Result<Annotation>
    requires Util.TwoTupleCheck(fidx).Ok? && MarkerCode(p.marker).Ok?
  {
    Record(typ, SpanOf(fidx), p.comment, MarkerCode(p.marker).value, p.value)
  }

  /** A successful call passed every check, and its result is `Commit` of
      the planned length, the record and the INFO entry found. */
  lemma AddAnnotationSteps(s: Segment, typ: string, fidx: Value, p: Params)
    requires AddAnnotation(s, typ, fidx, p).Ok?
    ensures typ in ["C", "M", "D"] && Validate(typ, p).Pass?
    ensures Util.TwoTupleCheck(fidx).Ok? && AnnLenplan(typ, p.comment).Ok? && MarkerCode(p.marker).Ok?
    ensures NewRecord(typ, fidx, p).Ok? && Info.GetFileByName(s.info, s.fname).Ok?
    ensures Info.GetFileByName(s.info, s.fname).value < |s.info.files|
    ensures AddAnnotation(s, typ, fidx, p) ==
      Commit(s, AnnLenplan(typ, p.comment).value, NewRecord(typ, fidx, p).value, Info.GetFileByName(s.info, s.fname).value)
  {
  }

  /** What `Commit` does: one record more under the next number, the
      others untouched; the annotation range ends at the new count; the
      frame range is the first record's interval, widened by every later
      one; INFO's count grows by one and entry `k` takes the new annotation
      end and frame range, every other entry and field keeping its value. */
  lemma CommitSpec(s: Segment, ln: nat, rec: Annotation, k: nat)
    requires k < |s.info.files|
    requires Commit(s, ln, rec, k).Ok?
    ensures var r := Commit(s, ln, rec, k).value;
      var n := s.anno.numAnnotations;
      && r.fname == s.fname
      && r.anno.numAnnotations == n + 1 && r.anno.aidxEnd == n + 1
      && r.anno.chunkSize == s.anno.chunkSize && r.anno.indexAnnotations == s.anno.indexAnnotations
      && r.anno.table == Append(s.anno.table, ln, ANN_TABLE_FIRST_START)
      && r.anno.annotations == s.anno.annotations[n := rec]
      && (n == 0 ==> r.anno.aidxStart == 0 && r.anno.fidxFirst == rec.fidxStart && r.anno.fidxLast == rec.fidxEnd)
      && (n > 0 ==>
            && r.anno.aidxStart == s.anno.aidxStart
            && r.anno.fidxFirst == Min(s.anno.fidxFirst, rec.fidxStart)
            && r.anno.fidxLast == Max(s.anno.fidxLast, rec.fidxEnd))
      && r.info == s.info.(numAnnotations := s.info.numAnnotations + 1, files := r.info.files)
      && |r.info.files| == |s.info.files|
      && r.info.files[k] == s.info.files[k].(aidxEnd := n + 1, fidxStart := r.anno.fidxFirst, fidxEnd := r.anno.fidxLast)
      && (forall j | 0 <= j < |s.info.files| && j != k :: r.info.files[j] == s.info.files[j])
  {
  }

  /** `Commit` fails only when a count no longer fits its field. */
  lemma CommitFails(s: Segment, ln: nat, rec: Annotation, k: nat)
    requires k < |s.info.files|
    requires WellFormed(s.anno)
    ensures Commit(s, ln, rec, k).Err? <==> !Fits(s.anno.numAnnotations + 1, 4) || !Fits(s.info.numAnnotations + 1, 8)
    ensures Commit(s, ln, rec, k).Err? ==> Commit(s, ln, rec, k).error == StructError
  {
  }

  /** The record keeps the type and the interval asked for. */
  lemma NewRecordFields(typ: string, fidx: Value, p: Params)
    requires Util.TwoTupleCheck(fidx).Ok? && MarkerCode(p.marker).Ok?
    requires NewRecord(typ, fidx, p).Ok?
    ensures var x := NewRecord(typ, fidx, p).value;
      && x.typ == typ && x.fidxStart == SpanOf(fidx).start && x.fidxEnd == SpanOf(fidx).stop
      && (typ == "C" <==> x.payload.Comment?)
      && (typ == "M" <==> x.payload.Marker?)
      && (typ == "D" <==> x.payload.MarkerValue?)
  {
  }

  /** A record is as long as its planned length: the entry the table gains
      for it has the length the record occupies. */
  lemma RecordLenIsLenplan(typ: string, span: Util.Span, comment: Option<Value>, marker: Option<Value>, value: Option<Value>)
    requires AnnLenplan(typ, comment).Ok?
    requires Record(typ, span, comment, marker, value).Ok?
    ensures RecordLen(Record(typ, span, comment, marker, value).value) == AnnLenplan(typ, comment)
  {
  }

  /** Adding a record to the table keeps the table and records in agreement. */
  lemma CommitIndexed(s: Segment, ln: nat, rec: Annotation, k: nat)
    requires k < |s.info.files|
    requires Indexed(s.anno) && RecordLen(rec) == Ok(ln)
    requires Commit(s, ln, rec, k).Ok?
    ensures Indexed(Commit(s, ln, rec, k).value.anno)
  {
    CommitSpec(s, ln, rec, k);
    TableMatchesAppend(s.anno.table, s.anno.annotations, s.anno.numAnnotations, ln, rec);
  }

  /** Adding a record keeps the header's ranges a summary of the records. */
  lemma CommitSpans(s: Segment, ln: nat, rec: Annotation, k: nat)
    requires k < |s.info.files|
    requires WellFormed(s.anno)
    requires Commit(s, ln, rec, k).Ok?
    ensures Spans(Commit(s, ln, rec, k).value.anno)
  {
    var r := Commit(s, ln, rec, k).value.anno;
    var a := s.anno;
    var n := a.numAnnotations;
    CommitSpec(s, ln, rec, k);
    assert r.annotations[n] == rec;
    if n > 0 {
      var i0 :| i0 in a.annotations && a.annotations[i0].fidxStart == a.fidxFirst;
      var i1 :| i1 in a.annotations && a.annotations[i1].fidxEnd == a.fidxLast;
      assert i0 < n && i1 < n;
      assert r.annotations[i0] == a.annotations[i0] && r.annotations[i1] == a.annotations[i1];
      if r.fidxFirst == a.fidxFirst {
        assert r.annotations[i0].fidxStart == r.fidxFirst;
      } else {
        assert r.annotations[n].fidxStart == r.fidxFirst;
      }
      if r.fidxLast == a.fidxLast {
        assert r.annotations[i1].fidxEnd == r.fidxLast;
      } else {
        assert r.annotations[n].fidxEnd == r.fidxLast;
      }
      forall i | i in r.annotations
        ensures r.fidxFirst <= r.annotations[i].fidxStart && r.annotations[i].fidxEnd <= r.fidxLast
      {
        if i != n {
          assert i in a.annotations;
        }
      }
    } else {
      assert r.annotations[n].fidxStart == r.fidxFirst;
      assert r.annotations[n].fidxEnd == r.fidxLast;
      assert forall i | i in r.annotations :: i == n;
    }
  }

  /** Adding an annotation keeps the table and records in agreement and the
      header's ranges a summary of the records. */
  lemma AddAnnotationWellFormed(s: Segment, typ: string, fidx: Value, p: Params)
    requires WellFormed(s.anno)
    requires AddAnnotation(s, typ, fidx, p).Ok?
    ensures WellFormed(AddAnnotation(s, typ, fidx, p).value.anno)
  {
    AddAnnotationSteps(s, typ, fidx, p);
    var ln := AnnLenplan(typ, p.comment).value;
    var rec := NewRecord(typ, fidx, p).value;
    var k := Info.GetFileByName(s.info, s.fname).value;
    RecordLenIsLenplan(typ, SpanOf(fidx), p.comment, MarkerCode(p.marker).value, p.value);
    CommitIndexed(s, ln, rec, k);
    CommitSpans(s, ln, rec, k);
  }

  /** A successful call adds the record under the next number with the type
      and interval asked for; the INFO entry updated is the first one named
      after this segment's file. */
  lemma AddAnnotationRecord(s: Segment, typ: string, fidx: Value, p: Params)
    requires AddAnnotation(s, typ, fidx, p).Ok?
    ensures var r := AddAnnotation(s, typ, fidx, p).value;
      var n := s.anno.numAnnotations;
      && n in r.anno.annotations
      && r.anno.annotations[n].typ == typ
      && r.anno.annotations[n].fidxStart == SpanOf(fidx).start
      && r.anno.annotations[n].fidxEnd == SpanOf(fidx).stop
      && r.anno.numAnnotations == n + 1 && r.info.numAnnotations == s.info.numAnnotations + 1
      && Wave.IsEntryOf(s.info.files, s.fname, Info.GetFileByName(s.info, s.fname).value)
  {
    AddAnnotationSteps(s, typ, fidx, p);
    NewRecordFields(typ, fidx, p);
    CommitSpec(s, AnnLenplan(typ, p.comment).value, NewRecord(typ, fidx, p).value, Info.GetFileByName(s.info, s.fname).value);
    Info.FindFileSpec(s.info.files, s.fname, 0);
  }

  /** After `initheader` on an empty chunk, the first annotation is entry 0
      of the table, starting at the second page, and the header's ranges are
      its own. */
  lemma FirstAnnotation(s: Segment, typ: string, fidx: Value, p: Params)
    requires s.anno.table == [] && s.anno.annotations == map[]
    requires AddAnnotation(s.(anno := InitHeader(s.anno)), typ, fidx, p).Ok?
    ensures var r := AddAnnotation(s.(anno := InitHeader(s.anno)), typ, fidx, p).value.anno;
      && r.table == [Entry(ANN_TABLE_FIRST_START, ANN_TABLE_FIRST_START + AnnLenplan(typ, p.comment).value)]
      && r.annotations.Keys == {0}
      && r.aidxStart == 0 && r.aidxEnd == 1
      && r.fidxFirst == SpanOf(fidx).start && r.fidxLast == SpanOf(fidx).stop
  {
    var s0 := s.(anno := InitHeader(s.anno));
    AddAnnotationSteps(s0, typ, fidx, p);
    NewRecordFields(typ, fidx, p);
    CommitSpec(s0, AnnLenplan(typ, p.comment).value, NewRecord(typ, fidx, p).value, Info.GetFileByName(s0.info, s0.fname).value);
  }

  // ---- markers and comments

  /** A text marker is the little-endian reading of its four ASCII codes:
      writing the number back out gives the characters again. */
  lemma MarkerRoundTrip(s: string)
    requires IsAscii(s) && |s| == 4
    ensures MarkerCode(Some(Str(s))).Ok?
    ensures var m := MarkerCode(Some(Str(s))).value.value;
      && m.Int? && Fits(m.i, 4)
      && LE(m.i, 4) == Ascii(s)
      && FieldValue(Some(m), 4) == Ok(m.i)
  {
    var bs := Ascii(s);
    FromLEBound(bs);
    FromLERoundTrip(bs);
  }

  /** Text markers that fail: non-ASCII text, or ASCII text of another
      length than four. */
  lemma MarkerRejects(s: string)
    ensures !IsAscii(s) ==> MarkerCode(Some(Str(s))) == Err(UnicodeEncodeError)
    ensures IsAscii(s) && |s| != 4 ==> MarkerCode(Some(Str(s))) == Err(StructError)
  {
  }

  /** A comment's end offset is `21 + len(comment)`, counted in characters,
      while its table entry is sized by the UTF-8 length: the two agree for
      a bytes comment, and for a text comment exactly when it is ASCII. */
  lemma CommentEndMatchesEntry(s: Segment, fidx: Value, comment: Value)
    requires Indexed(s.anno)
    requires AddAnnotation(s, "C", fidx, Params(Some(comment), None, None)).Ok?
    ensures comment.Str? || comment.Bytes?
    ensures var r := AddAnnotation(s, "C", fidx, Params(Some(comment), None, None)).value.anno;
      var n := s.anno.numAnnotations;
      && n in r.annotations && n < |r.table|
      && r.annotations[n].payload.Comment?
      && r.annotations[n].payload.commentStart == ANN_C_FIXED
      && (r.annotations[n].payload.commentEnd == r.table[n].end - r.table[n].start
          <==> comment.Bytes? || IsAscii(comment.s))
  {
    var p := Params(Some(comment), None, None);
    AddAnnotationSteps(s, "C", fidx, p);
    var rec := NewRecord("C", fidx, p).value;
    CommitSpec(s, AnnLenplan("C", p.comment).value, rec, Info.GetFileByName(s.info, s.fname).value);
    if comment.Str? {
      Utf8LenAscii(comment.s);
    }
  }

  // ---- resizing

  /** `resize(new_size)`: shrinking is a `ValueError`; otherwise the chunk
      grows to the whole pages that hold `new_size` bytes (`ResizeChunk`,
      whose own checks then hold). */
  function Resize(a: AnnoBlock, newSize: int): (r: Result<AnnoBlock>)
  {
    if newSize < a.chunkSize then Err(ValueError)
    else
      var size := Wave.PagesFor(newSize) * Util.PAGE;
      Wave.PagesForBounds(newSize);
      var grown :- Chunk.ResizePlan(a.chunkSize, size);
      Ok(a.(chunkSize := grown))
  }

  /** `resize_add(val)`: a negative `val` is a `ValueError`; otherwise the
      chunk is resized to its size plus `val`. */
  function ResizeAdd(a: AnnoBlock, val: int): (r: Result<AnnoBlock>)
  {
    if val < 0 then Err(ValueError) else Resize(a, a.chunkSize + val)
  }

  /** `resize_add_page(val)`: a negative `val` is a `ValueError`; otherwise
      the chunk grows by `val` pages. */
  function ResizeAddPage(a: AnnoBlock, val: int): (r: Result<AnnoBlock>)
  {
    if val < 0 then Err(ValueError) else ResizeAdd(a, val * Util.PAGE)
  }

  /** A resize succeeds exactly when it does not shrink the chunk, and gives
      the fewest whole pages that hold the size asked for; nothing but the
      size changes. */
  lemma ResizeSpec(a: AnnoBlock, newSize: int)
    ensures Resize(a, newSize).Ok? <==> newSize >= a.chunkSize
    ensures Resize(a, newSize).Err? ==> Resize(a, newSize).error == ValueError
    ensures Resize(a, newSize).Ok? ==>
      var r := Resize(a, newSize).value;
      && r == a.(chunkSize := r.chunkSize)
      && r.chunkSize % 4096 == 0
      && newSize <= r.chunkSize < newSize + 4096
  {
    Wave.PagesForBounds(newSize);
  }

  /** Growing by whole pages from a page-aligned size adds exactly those
      pages; from any size it ends on a page boundary no smaller than the
      size asked for. */
  lemma ResizeAddPageSpec(a: AnnoBlock, val: int)
    ensures ResizeAddPage(a, val).Ok? <==> val >= 0
    ensures ResizeAddPage(a, val).Err? ==> ResizeAddPage(a, val).error == ValueError
    ensures ResizeAddPage(a, val).Ok? && a.chunkSize % 4096 == 0 ==>
      ResizeAddPage(a, val).value == a.(chunkSize := a.chunkSize + val * 4096)
  {
    if val >= 0 {
      ResizeSpec(a, a.chunkSize + val * 4096);
    }
  }
}
