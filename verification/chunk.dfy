/** Chunk headers, chunk discovery and chunk growth (wiff/wiffchunk.py, and
    the `chunk_struct` layout of wiff/structs.py).
    A chunk is a 24-byte header -- 8-byte tag, little-endian u64 size,
    8 attribute bytes -- followed by its body; `size` counts the header. */
module Chunk {
  import opened Bytes
  import opened Errors
  import opened Util
  import Py

  const MAGIC_AT: nat := 0
  const SIZE_AT: nat := 8
  const ATTRS_AT: nat := 16
  /** `WIFF_chunk.len`: the header length. */
  const HEADER_LEN: nat := 24

  datatype Header = Header(magic: seq<byte>, size: nat, attrs: seq<byte>)

  /** A header every field of which fits its on-disk width. */
  predicate ValidHeader(h: Header)
  {
    |h.magic| == 8 && h.size < Pow256(8) && |h.attrs| == 8
  }

  /** The 24 header bytes. */
  function EncodeHeader(h: Header): (r: seq<byte>)
    requires ValidHeader(h)
    ensures |r| == HEADER_LEN
    ensures r[MAGIC_AT..SIZE_AT] == h.magic
    ensures FromLE(r[SIZE_AT..ATTRS_AT]) == h.size
    ensures r[ATTRS_AT..HEADER_LEN] == h.attrs
  {
    var r := h.magic + Pack(h.size, 8) + h.attrs;
    assert r[SIZE_AT..ATTRS_AT] == Pack(h.size, 8);
    r
  }

  /** Reading a header back from the first 24 bytes of `s`. */
  function DecodeHeader(s: seq<byte>): (r: Result<Header>)
    ensures r.Ok? <==> |s| >= HEADER_LEN
    ensures r.Ok? ==> ValidHeader(r.value)
  {
    if |s| < HEADER_LEN then Err(StructError)
    else
      FromLEBound(s[SIZE_AT..ATTRS_AT]);
      Ok(Header(s[MAGIC_AT..SIZE_AT], FromLE(s[SIZE_AT..ATTRS_AT]), s[ATTRS_AT..HEADER_LEN]))
  }

  lemma HeaderRoundTrip(h: Header)
    requires ValidHeader(h)
    ensures DecodeHeader(EncodeHeader(h)) == Ok(h)
  {
  }

  lemma HeaderBytesRoundTrip(s: seq<byte>)
    requires |s| == HEADER_LEN
    ensures DecodeHeader(s).Ok? && EncodeHeader(DecodeHeader(s).value) == s
  {
    var h := DecodeHeader(s).value;
    FromLERoundTrip(s[SIZE_AT..ATTRS_AT]);
    assert Pack(h.size, 8) == s[SIZE_AT..ATTRS_AT];
    assert s == s[MAGIC_AT..SIZE_AT] + s[SIZE_AT..ATTRS_AT] + s[ATTRS_AT..HEADER_LEN];
  }

  /** `WIFF_chunk.data_offset`: the body starts right after the header. */
  function DataOffset(offset: nat): (r: nat)
    ensures r - offset == HEADER_LEN
  {
    offset + HEADER_LEN
  }

  /** The `attributes` setter: the 8 values are packed as unsigned bytes
      (`struct.error` unless there are exactly 8, each in 0..255) and stored as
      the little-endian u64 of those bytes. */
  function AttributesField(v: seq<int>): (r: Result<nat>)
    ensures r.Ok? <==> |v| == 8 && forall i | 0 <= i < 8 :: 0 <= v[i] < 256
    ensures r.Ok? ==> r.value < Pow256(8)
  {
    if |v| == 8 && forall i | 0 <= i < 8 :: 0 <= v[i] < 256 then
      var bs: seq<byte> := seq(8, i requires 0 <= i < 8 => v[i]);
      FromLEBound(bs);
      Ok(FromLE(bs))
    else Err(StructError)
  }

  /** The `attributes` getter: the u64 field unpacked into 8 bytes. */
  function Attributes(field: nat): (r: seq<byte>)
    requires field < Pow256(8)
    ensures |r| == 8
    ensures FromLE(r) == field
  {
    Pack(field, 8)
  }

  /** Attributes read back after a successful set are the values set. */
  lemma AttributesRoundTrip(v: seq<int>)
    requires AttributesField(v).Ok?
    ensures Attributes(AttributesField(v).value) == v
  {
    var bs: seq<byte> := seq(8, i requires 0 <= i < 8 => v[i]);
    FromLERoundTrip(bs);
    assert bs == v;
  }

  /** Setting the attributes read from a field stores the same field. */
  lemma AttributesFieldRoundTrip(field: nat)
    requires field < Pow256(8)
    ensures AttributesField(Attributes(field)) == Ok(field)
  {
    var a := Attributes(field);
    var bs: seq<byte> := seq(8, i requires 0 <= i < 8 => a[i]);
    assert bs == a;
  }

  /** The size field of the chunk whose header is at `off`. */
  function SizeAt(f: seq<byte>, off: nat): (r: nat)
    requires off + ATTRS_AT <= |f|
    ensures r < Pow256(8)
  {
    FromLEBound(f[off + SIZE_AT..off + ATTRS_AT]);
    FromLE(f[off + SIZE_AT..off + ATTRS_AT])
  }

  /** One entry of the list `FindChunks` returns. */
  datatype Found = Found(magic: seq<byte>, size: nat, attrs: seq<byte>, headerOffset: nat, dataOffset: nat)

  /** The (up to) 8 bytes `f.read(8)` returns as the magic of the chunk at `off`. */
  function MagicAt(f: seq<byte>, off: nat): (r: seq<byte>)
    requires off <= |f|
    ensures |r| <= SIZE_AT
  {
    if off + SIZE_AT <= |f| then f[off..off + SIZE_AT] else f[off..]
  }

  /** `FindChunks` from offset `off`: read the header there, record it, and
      continue at `off + size` until the end of the file. The magic is decoded
      as UTF-8 first, so malformed magic bytes raise `UnicodeDecodeError`; a
      zero size is a `ValueError`; a header cut short by the end of the file
      makes `struct.unpack` fail. */
  function FindChunksFrom(f: seq<byte>, off: nat): (r: Result<seq<Found>>)
    decreases |f| - off
  {
    if off >= |f| then Ok([])
    else if !Py.Utf8Valid(MagicAt(f, off)) then Err(UnicodeDecodeError)
    else if off + ATTRS_AT > |f| then Err(StructError)
    else
      var sz := SizeAt(f, off);
      if sz == 0 then Err(ValueError)
      else if off + HEADER_LEN > |f| then Err(StructError)
      else
        var rest :- FindChunksFrom(f, off + sz);
        Ok([Found(f[off..off + SIZE_AT], sz, f[off + ATTRS_AT..off + HEADER_LEN], off, off + HEADER_LEN)] + rest)
  }

  /** `c` describes the header bytes of `f` at its offset: the magic is those
      8 bytes and decodes as UTF-8, the size is the nonzero size field, and the
      body starts 24 bytes after the header. */
  predicate FoundIn(f: seq<byte>, c: Found)
  {
    && c.headerOffset + HEADER_LEN <= |f|
    && c.magic == f[c.headerOffset..c.headerOffset + SIZE_AT]
    && Py.Utf8Valid(c.magic)
    && c.dataOffset == c.headerOffset + HEADER_LEN
    && c.size == SizeAt(f, c.headerOffset)
    && c.size > 0
  }

  /** The chunks found from `off` start at `off`, follow one another by their
      sizes, lie within the file, carry a magic that decodes as UTF-8, have
      their body 24 bytes after the header, and the last one reaches the end
      of the file. */
  lemma {:induction false} FindChunksWalk(f: seq<byte>, off: nat)
    requires FindChunksFrom(f, off).Ok?
    decreases |f| - off
    ensures var cs := FindChunksFrom(f, off).value;
      && (|cs| == 0 <==> off >= |f|)
      && (|cs| > 0 ==> cs[0].headerOffset == off)
      && (forall i | 0 <= i < |cs| :: FoundIn(f, cs[i]))
      && (forall i | 0 <= i < |cs| - 1 :: cs[i + 1].headerOffset == cs[i].headerOffset + cs[i].size)
      && (|cs| > 0 ==> cs[|cs| - 1].headerOffset + cs[|cs| - 1].size >= |f|)
  {
    if off < |f| {
      var c0 := FindChunksUnfold(f, off);
      FindChunksWalk(f, off + c0.size);
      var rest := FindChunksFrom(f, off + c0.size).value;
      WalkCons(f, c0, rest);
      assert FindChunksFrom(f, off).value == [c0] + rest;
    }
  }

  /** Prepending a chunk found at `c.headerOffset` that ends where the rest
      begins keeps the walk facts. */
  lemma WalkCons(f: seq<byte>, c: Found, rest: seq<Found>)
    requires FoundIn(f, c)
    requires forall i | 0 <= i < |rest| :: FoundIn(f, rest[i])
    requires forall i | 0 <= i < |rest| - 1 :: rest[i + 1].headerOffset == rest[i].headerOffset + rest[i].size
    requires |rest| > 0 ==> rest[0].headerOffset == c.headerOffset + c.size
    ensures var cs := [c] + rest;
      && (forall i | 0 <= i < |cs| :: FoundIn(f, cs[i]))
      && (forall i | 0 <= i < |cs| - 1 :: cs[i + 1].headerOffset == cs[i].headerOffset + cs[i].size)
      && cs[|cs| - 1] == (if |rest| > 0 then rest[|rest| - 1] else c)
  {
    var cs := [c] + rest;
    forall i | 0 <= i < |cs|
      ensures FoundIn(f, cs[i])
    {
      if i > 0 {
        assert cs[i] == rest[i - 1];
      }
    }
    forall i | 0 <= i < |cs| - 1
      ensures cs[i + 1].headerOffset == cs[i].headerOffset + cs[i].size
    {
      if i > 0 {
        assert cs[i] == rest[i - 1] && cs[i + 1] == rest[i];
      }
    }
  }

  /** A successful walk from inside the file records the header at `off`
      and continues at `off` plus its size. */
  lemma FindChunksUnfold(f: seq<byte>, off: nat) returns (c: Found)
    requires off < |f| && FindChunksFrom(f, off).Ok?
    ensures FoundIn(f, c) && c.headerOffset == off
    ensures FindChunksFrom(f, off + c.size).Ok?
    ensures FindChunksFrom(f, off).value == [c] + FindChunksFrom(f, off + c.size).value
  {
    var sz := SizeAt(f, off);
    c := Found(f[off..off + SIZE_AT], sz, f[off + ATTRS_AT..off + HEADER_LEN], off, off + HEADER_LEN);
    assert MagicAt(f, off) == f[off..off + SIZE_AT];
  }

  /** `WIFF_chunk.FindChunks(f)`. */
  function FindChunks(f: seq<byte>): Result<seq<Found>>
  {
    FindChunksFrom(f, 0)
  }

  /** A zero size field met during the walk stops it with `ValueError`, once
      the magic before it has decoded. */
  lemma FindChunksRejectsZeroSize(f: seq<byte>, off: nat)
    requires off + HEADER_LEN <= |f|
    requires Py.Utf8Valid(f[off..off + SIZE_AT])
    requires SizeAt(f, off) == 0
    ensures FindChunksFrom(f, off) == Err(ValueError)
  {
  }

  /** Magic bytes that are not UTF-8 stop the walk with `UnicodeDecodeError`
      before the size is looked at, whatever it holds. */
  lemma FindChunksRejectsBadMagic(f: seq<byte>, off: nat)
    requires off < |f|
    requires !Py.Utf8Valid(MagicAt(f, off))
    ensures FindChunksFrom(f, off) == Err(UnicodeDecodeError)
  {
  }

  /** A file whose first byte is 0xFF is refused however its size field reads. */
  lemma FindChunksRejectsFF(f: seq<byte>)
    requires |f| >= HEADER_LEN && f[0] == 0xFF
    ensures FindChunks(f) == Err(UnicodeDecodeError)
  {
    assert MagicAt(f, 0)[0] == 0xFF;
  }

  /** The file formed by writing the headers `hs` one after another, each
      chunk's body left zero. */
  function Layout(hs: seq<Header>): (r: seq<byte>)
    requires forall i | 0 <= i < |hs| :: ValidHeader(hs[i]) && hs[i].size >= HEADER_LEN
  {
    if |hs| == 0 then []
    else EncodeHeader(hs[0]) + Zeros(hs[0].size - HEADER_LEN) + Layout(hs[1..])
  }

  /** The chunks `FindChunks` is expected to report for `Layout(hs)` placed at `base`. */
  function Expected(hs: seq<Header>, base: nat): seq<Found>
  {
    if |hs| == 0 then []
    else
      [Found(hs[0].magic, hs[0].size, hs[0].attrs, base, base + HEADER_LEN)]
      + Expected(hs[1..], base + hs[0].size)
  }

  /** `f` holds, from `off` to its end, the chunks with headers `hs` back to
      back: each header sits where the previous chunk ends. */
  predicate LaidOut(f: seq<byte>, off: nat, hs: seq<Header>)
    decreases |hs|
  {
    if |hs| == 0 then off == |f|
    else
      && ValidHeader(hs[0]) && hs[0].size >= HEADER_LEN
      && off + HEADER_LEN <= |f| && f[off..off + HEADER_LEN] == EncodeHeader(hs[0])
      && LaidOut(f, off + hs[0].size, hs[1..])
  }

  /** Discovery inverts layout: in a file laid out back to back from `off`,
      the walk from `off` finds exactly those chunks, in order, at their
      running offsets. */
  lemma {:induction false} FindChunksOfLaidOut(f: seq<byte>, off: nat, hs: seq<Header>)
    requires LaidOut(f, off, hs)
    requires forall i | 0 <= i < |hs| :: Py.Utf8Valid(hs[i].magic)
    ensures FindChunksFrom(f, off) == Ok(Expected(hs, off))
    decreases |hs|
  {
    if |hs| > 0 {
      var tl := hs[1..];
      forall i | 0 <= i < |tl|
        ensures Py.Utf8Valid(tl[i].magic)
      {
        assert tl[i] == hs[i + 1];
      }
      FindChunksOfLaidOut(f, off + hs[0].size, tl);
      FindChunksStep(f, off, hs[0]);
    }
  }

  /** The file built by `Layout` is laid out back to back. */
  lemma {:induction false} LayoutIsLaidOut(prefix: seq<byte>, hs: seq<Header>)
    requires forall i | 0 <= i < |hs| :: ValidHeader(hs[i]) && hs[i].size >= HEADER_LEN
    ensures LaidOut(prefix + Layout(hs), |prefix|, hs)
    decreases |hs|
  {
    if |hs| == 0 {
      assert prefix + Layout(hs) == prefix;
    } else {
      var next := LayoutHead(prefix, hs);
      LayoutIsLaidOut(next, hs[1..]);
    }
  }

  /** Discovery over a file built from headers whose magics are UTF-8 finds
      them all, from offset 0. */
  lemma FindChunksOfLayout(hs: seq<Header>)
    requires forall i | 0 <= i < |hs| :: ValidHeader(hs[i]) && hs[i].size >= HEADER_LEN
    requires forall i | 0 <= i < |hs| :: Py.Utf8Valid(hs[i].magic)
    ensures FindChunks(Layout(hs)) == Ok(Expected(hs, 0))
  {
    LayoutIsLaidOut([], hs);
    assert [] + Layout(hs) == Layout(hs);
    FindChunksOfLaidOut(Layout(hs), 0, hs);
  }

  /** The first header of a layout sits right after the prefix, and the rest
      of the layout starts `size` bytes later. */
  lemma LayoutHead(prefix: seq<byte>, hs: seq<Header>) returns (next: seq<byte>)
    requires |hs| > 0
    requires forall i | 0 <= i < |hs| :: ValidHeader(hs[i]) && hs[i].size >= HEADER_LEN
    ensures forall i | 0 <= i < |hs[1..]| :: ValidHeader(hs[1..][i]) && hs[1..][i].size >= HEADER_LEN
    ensures prefix + Layout(hs) == next + Layout(hs[1..])
    ensures |next| == |prefix| + hs[0].size
    ensures (prefix + Layout(hs))[|prefix|..|prefix| + HEADER_LEN] == EncodeHeader(hs[0])
  {
    var enc := EncodeHeader(hs[0]);
    next := prefix + enc + Zeros(hs[0].size - HEADER_LEN);
    assert Layout(hs) == enc + Zeros(hs[0].size - HEADER_LEN) + Layout(hs[1..]);
    assert prefix + Layout(hs) == next + Layout(hs[1..]);
    assert (next + Layout(hs[1..]))[|prefix|..|prefix| + HEADER_LEN] == enc;
  }

  /** One step of the walk over a well-formed header. */
  lemma FindChunksStep(f: seq<byte>, off: nat, h: Header)
    requires ValidHeader(h) && h.size > 0 && Py.Utf8Valid(h.magic)
    requires off + HEADER_LEN <= |f| && f[off..off + HEADER_LEN] == EncodeHeader(h)
    ensures FindChunksFrom(f, off) ==
        match FindChunksFrom(f, off + h.size)
        case Ok(rest) => Ok([Found(h.magic, h.size, h.attrs, off, off + HEADER_LEN)] + rest)
        case Err(e) => Err(e)
  {
    SubSlice(f, off, off + HEADER_LEN, SIZE_AT, ATTRS_AT);
    SubSlice(f, off, off + HEADER_LEN, MAGIC_AT, SIZE_AT);
    SubSlice(f, off, off + HEADER_LEN, ATTRS_AT, HEADER_LEN);
    assert MagicAt(f, off) == h.magic;
    assert SizeAt(f, off) == h.size;
  }

  /** A slice of a slice is a slice of the whole. */
  lemma SubSlice(f: seq<byte>, lo: nat, hi: nat, a: nat, b: nat)
    requires lo <= hi <= |f| && a <= b <= hi - lo
    ensures f[lo..hi][a..b] == f[lo + a..lo + b]
  {
    forall k | 0 <= k < b - a
      ensures f[lo..hi][a..b][k] == f[lo + a..lo + b][k]
    {
      assert f[lo..hi][a..b][k] == f[lo + a + k];
    }
  }

  /** What `ResizeChunk` does to the chunk's size: a new size off the page grid
      or below the current size is a `ValueError`; the same size is a no-op. */
  function ResizePlan(cur: nat, newSize: nat): (r: Result<nat>)
    ensures r.Ok? <==> newSize % PAGE == 0 && newSize >= cur
    ensures r.Ok? ==> r.value == newSize
    ensures r.Err? ==> r.error == ValueError
  {
    if newSize % PAGE != 0 then Err(ValueError)
    else if cur == newSize then Ok(cur)
    else if cur > newSize then Err(ValueError)
    else Ok(newSize)
  }

  /** The first byte of the page that holds byte `x`. */
  function PageFloor(x: nat): (r: nat)
    ensures r <= x < r + PAGE && r % PAGE == 0
  {
    x / 4096 * 4096
  }

  /** The file grown by `d` zero bytes, with the bytes `[lo, hi)` copied
      forward by `d`. */
  function Moved(f: seq<byte>, d: nat, lo: nat, hi: nat): (r: seq<byte>)
    requires hi <= |f|
    ensures |r| == |f| + d
  {
    seq(|f| + d, k requires 0 <= k < |f| + d =>
      if lo + d <= k < hi + d then f[k - d]
      else if k < |f| then f[k] else 0)
  }

  /** The file after growing by `d` bytes and copying the whole pages from the
      page holding byte `end` up to the last whole page of the file forward by
      `d`. */
  function Shifted(f: seq<byte>, end: nat, d: nat): (r: seq<byte>)
    ensures |r| == |f| + d
  {
    Moved(f, d, PageFloor(end), PageFloor(|f|))
  }

  /** Copying one more page (the one just below the part already moved) reads
      bytes no earlier copy has touched and extends the moved part by a page. */
  lemma MovePage(f: seq<byte>, d: nat, lo: nat, hi: nat)
    requires d > 0 && lo + 4096 <= hi <= |f|
    ensures Read(Store(Moved(f, d, lo + 4096, hi)), lo, lo + 4096) == f[lo..lo + 4096]
    ensures WriteSlice(Store(Moved(f, d, lo + 4096, hi)), lo + d, lo + d + 4096, f[lo..lo + 4096])
      == Ok(Store(Moved(f, d, lo, hi)))
  {
    var g := Moved(f, d, lo + 4096, hi);
    assert g[lo..lo + 4096] == f[lo..lo + 4096];
    var w := WriteSlice(Store(g), lo + d, lo + d + 4096, f[lo..lo + 4096]);
    assert w.Ok?;
    assert w.value.data == Moved(f, d, lo, hi);
  }

  /** Before any copy the grown file is the file followed by zeros. */
  lemma MovedNothing(s: Store, d: nat, x: nat)
    requires x <= s.Size()
    ensures ResizeAdd(s, d).Ok? && ResizeAdd(s, d).value.data == Moved(s.data, d, x, x)
  {
  }

  lemma BlankedNothing(g: seq<byte>, lo: nat)
    ensures Blanked(g, lo, lo) == g
  {
  }

  /** Blanking one more page right after the blanked part. */
  lemma BlankPage(g: seq<byte>, lo: nat, mid: nat)
    requires lo <= mid && mid + 4096 <= |g|
    ensures WriteSlice(Store(Blanked(g, lo, mid)), mid, mid + 4096, Zeros(4096))
      == Ok(Store(Blanked(g, lo, mid + 4096)))
  {
    var w := WriteSlice(Store(Blanked(g, lo, mid)), mid, mid + 4096, Zeros(4096));
    assert w.Ok?;
    assert w.value.data == Blanked(g, lo, mid + 4096);
  }

  /** `g` with the bytes `[lo, hi)` set to zero. */
  function Blanked(g: seq<byte>, lo: nat, hi: nat): (r: seq<byte>)
    ensures |r| == |g|
  {
    seq(|g|, k requires 0 <= k < |g| => if lo <= k < hi then 0 else g[k])
  }

  /** The file image `ResizeChunk` produces when the chunk at `off` grows from
      `oldSize` to `newSize`: later pages shifted, the `(newSize - oldSize) / 4096`
      pages at the old chunk end zeroed, the size field rewritten. */
  function Relocated(f: seq<byte>, off: nat, oldSize: nat, newSize: nat): (r: seq<byte>)
    requires oldSize < newSize < Pow256(8)
    requires off + HEADER_LEN <= |f|
    ensures |r| == |f| + (newSize - oldSize)
  {
    var d := newSize - oldSize;
    var lo := PageFloor(off + oldSize);
    var g := Blanked(Shifted(f, off + oldSize, d), lo, lo + d / 4096 * 4096);
    var sizeBytes := Pack(newSize, 8);
    seq(|f| + d, k requires 0 <= k < |f| + d =>
      if off + SIZE_AT <= k < off + ATTRS_AT then sizeBytes[k - off - SIZE_AT] else g[k])
  }

  /** The last step of a resize: writing the new size field into the
      shifted and blanked file gives `Relocated`. */
  lemma WriteNewSize(f: seq<byte>, off: nat, oldSize: nat, newSize: nat, g: seq<byte>)
    requires oldSize < newSize < Pow256(8)
    requires off + HEADER_LEN <= |f|
    requires g == Blanked(Shifted(f, off + oldSize, newSize - oldSize), PageFloor(off + oldSize),
                          PageFloor(off + oldSize) + (newSize - oldSize) / 4096 * 4096)
    ensures WriteSlice(Store(g), off + SIZE_AT, off + ATTRS_AT, Pack(newSize, 8))
      == Ok(Store(Relocated(f, off, oldSize, newSize)))
  {
    var w := WriteSlice(Store(g), off + SIZE_AT, off + ATTRS_AT, Pack(newSize, 8));
    assert w.Ok?;
    assert w.value.data == Relocated(f, off, oldSize, newSize);
  }

  /** The page-copy loop of `ResizeChunk`: pages `pgTotal - 1` down to
      `pgChkEnd` of the original file `f` are copied forward by `delta` in
      the file already grown by `delta`. */
  method MovePages(f: seq<byte>, delta: nat, pgChkEnd: nat, pgTotal: nat) returns (g: seq<byte>)
    requires delta > 0 && pgChkEnd <= pgTotal && pgTotal * 4096 <= |f|
    ensures g == Moved(f, delta, pgChkEnd * 4096, pgTotal * 4096)
  {
    g := f + Zeros(delta);
    assert g == Moved(f, delta, pgTotal * 4096, pgTotal * 4096);
    // Descending order: a page is read before any copy can land on it.
    var i := pgTotal;
    while i > pgChkEnd
      invariant pgChkEnd <= i <= pgTotal
      invariant g == Moved(f, delta, i * 4096, pgTotal * 4096)
    {
      i := i - 1;
      var ofOld := i * 4096;
      var ofNew := ofOld + delta;
      MovePage(f, delta, ofOld, pgTotal * 4096);
      var page := Read(Store(g), ofOld, ofOld + 4096);
      g := WriteSlice(Store(g), ofNew, ofNew + 4096, page).value.data;
    }
  }

  /** The blanking loop of `ResizeChunk`: pages `first` to `first + count - 1`
      are overwritten with zeros. A page that ends past the file makes the
      store's slice write raise `NeedResizeException`. */
  method BlankPages(g0: seq<byte>, first: nat, count: nat) returns (r: Result<seq<byte>>)
    ensures count > 0 && (first + count) * 4096 > |g0| ==> r == Err(NeedResize)
    ensures count == 0 || (first + count) * 4096 <= |g0| ==>
      r == Ok(Blanked(g0, first * 4096, (first + count) * 4096))
  {
    var g := g0;
    var j := first;
    BlankedNothing(g0, first * 4096);
    while j < first + count
      invariant first <= j <= first + count
      invariant j == first || j * 4096 <= |g0|
      invariant g == Blanked(g0, first * 4096, j * 4096)
    {
      var w := WriteSlice(Store(g), j * 4096, (j + 1) * 4096, Zeros(4096));
      if w.Err? {
        return Err(w.error);
      }
      BlankPage(g0, first * 4096, j * 4096);
      g := w.value.data;
      j := j + 1;
    }
    return Ok(g);
  }

  /** The pages `ResizeChunk` blanks after growing a file of `fsize` bytes by
      `delta` fit in the grown file: there are none, or the last one ends
      inside it. They always do when the chunk ends inside the file. */
  predicate BlankFits(fsize: nat, end: nat, delta: nat)
  {
    delta / 4096 == 0 || PageFloor(end) + delta / 4096 * 4096 <= fsize + delta
  }

  /** A chunk that ends inside the file always has room for its blank pages. */
  lemma BlankFitsInside(fsize: nat, end: nat, delta: nat)
    requires end <= fsize
    ensures BlankFits(fsize, end, delta)
  {
  }

  /** A 4096-byte file whose only chunk claims 8192 bytes cannot grow that
      chunk to 12288: the page blanked at 8192 lies past the 8192-byte grown
      file. */
  lemma BlankPastEnd()
    ensures !BlankFits(4096, 8192, 4096)
    ensures BlankFits(4096, 4096, 4096)
  {
  }

  /** `WIFF_chunk.ResizeChunk(chk, new_size)` on the chunk whose header is at
      `off`. Every page copy and every blanking goes through the store's
      bounds-checked slice write. The chunk may claim more bytes than the file
      holds (as the last chunk `FindChunks` reports may); then nothing moves
      and the blanking can run past the file. */
  method ResizeChunk(s: Store, off: nat, newSize: nat) returns (r: Result<Store>)
    requires off + HEADER_LEN <= s.Size()
    ensures ResizePlan(SizeAt(s.data, off), newSize).Err? ==> r == Err(ValueError)
    ensures newSize % PAGE == 0 && newSize == SizeAt(s.data, off) ==> r == Ok(s)
    ensures newSize % PAGE == 0 && SizeAt(s.data, off) < newSize ==>
      if !BlankFits(s.Size(), off + SizeAt(s.data, off), newSize - SizeAt(s.data, off)) then
        r == Err(NeedResize)
      else if newSize < Pow256(8) then r == Ok(Store(Relocated(s.data, off, SizeAt(s.data, off), newSize)))
      else r == Err(StructError)
  {
    var cur := SizeAt(s.data, off);
    if newSize % PAGE != 0 {
      return Err(ValueError);
    }
    if cur == newSize {
      return Ok(s);
    } else if cur > newSize {
      return Err(ValueError);
    }
    var f := s.data;
    var shifted := ShiftAndBlank(s, off + cur, newSize - cur);
    if shifted.Err? {
      return Err(shifted.error);
    }
    var g := shifted.value;
    if newSize >= Pow256(8) {
      return Err(StructError);
    }
    WriteNewSize(f, off, cur, newSize, g);
    r := WriteSlice(Store(g), off + SIZE_AT, off + ATTRS_AT, Pack(newSize, 8));
  }

  /** The growing part of `ResizeChunk`: extend the file by `delta` bytes,
      copy the pages from the one holding the chunk end onwards forward by
      `delta`, and zero the `delta / 4096` pages starting at that page. */
  method ShiftAndBlank(s: Store, end: nat, delta: nat) returns (r: Result<seq<byte>>)
    requires 0 < delta
    ensures !BlankFits(s.Size(), end, delta) ==> r == Err(NeedResize)
    ensures BlankFits(s.Size(), end, delta) ==>
      r == Ok(Blanked(Shifted(s.data, end, delta), PageFloor(end), PageFloor(end) + delta / 4096 * 4096))
  {
    var f := s.data;
    var fsize := |f|;
    var pgChkEnd := end / 4096;
    var pgTotal := fsize / 4096;
    var grown := ResizeAdd(s, delta);
    var g := grown.value.data;
    if fsize > end {
      g := MovePages(f, delta, pgChkEnd, pgTotal);
    } else {
      // The chunk is the last one: nothing to move.
      MovedNothing(s, delta, pgTotal * 4096);
      MovedEmpty(f, delta, PageFloor(end), pgTotal * 4096);
    }
    assert PageFloor(end) == pgChkEnd * 4096 && PageFloor(fsize) == pgTotal * 4096;
    assert (pgChkEnd + delta / 4096) * 4096 == PageFloor(end) + delta / 4096 * 4096;
    r := BlankPages(g, pgChkEnd, delta / 4096);
  }

  /** A copy whose source range is empty moves nothing. */
  lemma MovedEmpty(f: seq<byte>, d: nat, lo: nat, hi: nat)
    requires hi <= lo && hi <= |f|
    ensures Moved(f, d, lo, hi) == Moved(f, d, hi, hi)
  {
  }

  /** A page-aligned offset is its own page floor. */
  lemma Aligned(x: nat)
    requires x % 4096 == 0
    ensures PageFloor(x) == x && x / 4096 * 4096 == x
  {
  }

  /** The byte at `k` of `Relocated` when chunk and file are page-aligned:
      the new size inside the size field, the original byte before the old
      chunk end, zero in the `d` grown bytes, and the original byte `k - d`
      after them. */
  lemma RelocatedAt(f: seq<byte>, off: nat, oldSize: nat, newSize: nat, k: nat)
    requires oldSize < newSize < Pow256(8)
    requires off + HEADER_LEN <= oldSize + off <= |f|
    requires (off + oldSize) % PAGE == 0 && (newSize - oldSize) % PAGE == 0 && |f| % PAGE == 0
    requires k < |f| + (newSize - oldSize)
    ensures var r := Relocated(f, off, oldSize, newSize);
      if off + SIZE_AT <= k < off + ATTRS_AT then r[k] == Pack(newSize, 8)[k - off - SIZE_AT]
      else if k < off + oldSize then r[k] == f[k]
      else if k < off + newSize then r[k] == 0
      else r[k] == f[k - (newSize - oldSize)]
  {
    var d := newSize - oldSize;
    var end := off + oldSize;
    Aligned(end);
    Aligned(|f|);
    Aligned(d);
    var sh := Moved(f, d, end, |f|);
    assert Shifted(f, end, d) == sh;
    var bl := Blanked(sh, end, end + d);
    var r := Relocated(f, off, oldSize, newSize);
    if !(off + SIZE_AT <= k < off + ATTRS_AT) {
      assert r[k] == bl[k];
      if k < end || k >= end + d {
        assert bl[k] == sh[k];
      }
    }
  }

  /** When the chunk ends on a page boundary of a page-aligned file, growing by `d` keeps
      every byte before the old chunk end (except the size field, which now
      holds the new size), zeroes the `d` bytes after it, and moves every
      later byte up by exactly `d`. */
  lemma RelocatedLayout(f: seq<byte>, off: nat, oldSize: nat, newSize: nat)
    requires oldSize < newSize < Pow256(8)
    requires off + HEADER_LEN <= oldSize + off <= |f|
    requires (off + oldSize) % PAGE == 0 && (newSize - oldSize) % PAGE == 0 && |f| % PAGE == 0
    ensures var r := Relocated(f, off, oldSize, newSize);
      && |r| == |f| + (newSize - oldSize)
      && FromLE(r[off + SIZE_AT..off + ATTRS_AT]) == newSize
      && (forall k | 0 <= k < off + oldSize && !(off + SIZE_AT <= k < off + ATTRS_AT) :: r[k] == f[k])
      && (forall k | off + oldSize <= k < off + newSize :: r[k] == 0)
      && (forall k | off + oldSize <= k < |f| :: r[k + (newSize - oldSize)] == f[k])
  {
    var r := Relocated(f, off, oldSize, newSize);
    var d := newSize - oldSize;
    forall k | 0 <= k < off + oldSize && !(off + SIZE_AT <= k < off + ATTRS_AT)
      ensures r[k] == f[k]
    {
      RelocatedAt(f, off, oldSize, newSize, k);
    }
    forall k | off + oldSize <= k < off + newSize
      ensures r[k] == 0
    {
      RelocatedAt(f, off, oldSize, newSize, k);
    }
    forall k | off + oldSize <= k < |f|
      ensures r[k + d] == f[k]
    {
      RelocatedAt(f, off, oldSize, newSize, k + d);
    }
    RelocatedSizeField(f, off, oldSize, newSize);
  }

  /** The size field of the relocated chunk holds the new size. */
  lemma RelocatedSizeField(f: seq<byte>, off: nat, oldSize: nat, newSize: nat)
    requires oldSize < newSize < Pow256(8)
    requires off + HEADER_LEN <= oldSize + off <= |f|
    requires (off + oldSize) % PAGE == 0 && (newSize - oldSize) % PAGE == 0 && |f| % PAGE == 0
    ensures FromLE(Relocated(f, off, oldSize, newSize)[off + SIZE_AT..off + ATTRS_AT]) == newSize
  {
    var r := Relocated(f, off, oldSize, newSize);
    forall k | off + SIZE_AT <= k < off + ATTRS_AT
      ensures r[k] == Pack(newSize, 8)[k - off - SIZE_AT]
    {
      RelocatedAt(f, off, oldSize, newSize, k);
    }
    assert r[off + SIZE_AT..off + ATTRS_AT] == Pack(newSize, 8);
  }
}
