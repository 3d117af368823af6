/** The backing-file wrapper (`_filewrap`) and the interval coercion helper
    (`twotuplecheck`) of wiff/util.py.
    The file is a byte sequence; its length is the wrapper's `size`. */
module Util {
  import opened Bytes
  import opened Errors
  import opened Py

  /** The growth and alignment unit of every chunk. */
  const PAGE: nat := 4096

  /** A memory-mapped backing file. */
  datatype Store = Store(data: seq<byte>) {
    function Size(): nat
    {
      |data|
    }
  }

  /** Opening a path that does not exist first writes one page of zeros. */
  function Create(): (s: Store)
    ensures s.Size() == PAGE
    ensures forall i | 0 <= i < s.Size() :: s.data[i] == 0
  {
    Store(Zeros(PAGE))
  }

  /** `resize(sz)`: the map and the file take the new length; bytes kept keep
      their values and bytes added read as zero. */
  function Resize(s: Store, sz: nat): (r: Store)
    ensures r.Size() == sz
    ensures forall i | 0 <= i < sz && i < s.Size() :: r.data[i] == s.data[i]
    ensures forall i | s.Size() <= i < sz :: r.data[i] == 0
  {
    if sz <= |s.data| then Store(s.data[..sz]) else Store(s.data + Zeros(sz - |s.data|))
  }

  /** `resize_add(delta)`: grow (or shrink) by `delta` bytes; a negative total
      length makes `mmap.resize` raise `ValueError`. */
  function ResizeAdd(s: Store, delta: int): (r: Result<Store>)
    ensures r.Ok? <==> s.Size() + delta >= 0
    ensures r.Ok? ==> r.value.Size() == s.Size() + delta
    ensures r.Ok? ==> forall i | 0 <= i < s.Size() && i < r.value.Size() :: r.value.data[i] == s.data[i]
  {
    if s.Size() + delta < 0 then Err(ValueError) else Ok(Resize(s, s.Size() + delta))
  }

  /** `fw[start:stop]` with non-negative bounds: Python clamps both bounds to
      the size and yields nothing when `start >= stop`. */
  function Read(s: Store, start: nat, stop: nat): (r: seq<byte>)
    ensures stop <= s.Size() && start <= stop ==> r == s.data[start..stop]
    ensures |r| <= s.Size()
  {
    var hi := if stop <= |s.data| then stop else |s.data|;
    if start >= hi then [] else s.data[start..hi]
  }

  /** `fw[k]` for a non-negative index. */
  function ReadByte(s: Store, k: nat): (r: Result<byte>)
    ensures r.Ok? <==> k < s.Size()
    ensures r.Ok? ==> r.value == s.data[k]
  {
    if k < |s.data| then Ok(s.data[k]) else Err(IndexError)
  }

  /** Number of positions the slice `[start:stop]` covers in a file of at
      least `stop` bytes. */
  function SliceLen(start: nat, stop: nat): nat
  {
    if start <= stop then stop - start else 0
  }

  /** `fw[start:stop] = v`: `NeedResizeException` when the slice ends past the
      file; otherwise the map itself insists that `v` is exactly as long as
      the slice (`IndexError`). Nothing is written on either failure. */
  function WriteSlice(s: Store, start: nat, stop: nat, v: seq<byte>): (r: Result<Store>)
    ensures stop > s.Size() ==> r == Err(NeedResize)
    ensures stop <= s.Size() && |v| != SliceLen(start, stop) ==> r == Err(IndexError)
    ensures r.Ok? <==> stop <= s.Size() && |v| == SliceLen(start, stop)
    ensures r.Ok? ==> r.value.Size() == s.Size()
    ensures r.Ok? ==> forall i | 0 <= i < s.Size() ::
      r.value.data[i] == if start <= i < stop then v[i - start] else s.data[i]
  {
    if stop > |s.data| then Err(NeedResize)
    else if |v| != SliceLen(start, stop) then Err(IndexError)
    else if start >= stop then Ok(s)
    else Ok(Store(s.data[..start] + v + s.data[stop..]))
  }

  /** `fw[k] = v` as written: the wrapper only refuses `k > size`, so `k == size`
      reaches the map, which raises `IndexError` rather than
      `NeedResizeException`. */
  function WriteByte(s: Store, k: nat, v: byte): (r: Result<Store>)
    ensures k > s.Size() ==> r == Err(NeedResize)
    ensures k == s.Size() ==> r == Err(IndexError)
    ensures r.Ok? <==> k < s.Size()
    ensures r.Ok? ==> r.value.data == s.data[k := v]
  {
    if k > |s.data| then Err(NeedResize)
    else if k == |s.data| then Err(IndexError)
    else Ok(Store(s.data[k := v]))
  }

  /** A write that succeeds is read back unchanged, and the bytes around it
      are those of the file before the write. */
  lemma WriteThenRead(s: Store, start: nat, stop: nat, v: seq<byte>)
    requires WriteSlice(s, start, stop, v).Ok?
    ensures Read(WriteSlice(s, start, stop, v).value, start, stop) == v
    ensures Read(WriteSlice(s, start, stop, v).value, 0, start) == Read(s, 0, start)
    ensures Read(WriteSlice(s, start, stop, v).value, stop, s.Size()) == Read(s, stop, s.Size())
  {
    var t := WriteSlice(s, start, stop, v).value;
    if start < stop {
      assert Read(t, start, stop) == t.data[start..stop];
    }
  }

  /** Growing by `delta` leaves every earlier byte readable at its old place. */
  lemma ResizeAddKeepsContent(s: Store, delta: nat)
    ensures ResizeAdd(s, delta).Ok?
    ensures Read(ResizeAdd(s, delta).value, 0, s.Size()) == s.data
    ensures Read(ResizeAdd(s, delta).value, s.Size(), s.Size() + delta) == Zeros(delta)
  {
  }

  /** An interval as produced by `twotuplecheck`. */
  datatype Span = Span(start: int, stop: int)

  /** `twotuplecheck(x)`: a tuple of exactly two integers becomes an interval,
      any other tuple is a `ValueError`, an interval passes through and
      anything else is a `TypeError`. */
  function TwoTupleCheck(x: Value): (r: Result<Span>)
    ensures x.Tuple? && |x.items| == 2 && IsInt(x.items[0]) && IsInt(x.items[1]) ==>
      r == Ok(Span(IntOf(x.items[0]), IntOf(x.items[1])))
    ensures x.Tuple? && !(|x.items| == 2 && IsInt(x.items[0]) && IsInt(x.items[1])) ==>
      r == Err(ValueError)
    ensures x.Interval? ==> r == Ok(Span(x.start, x.stop))
    ensures !x.Tuple? && !x.Interval? ==> r == Err(TypeError)
  {
    match x
    case Tuple(items) =>
      if |items| == 2 && IsInt(items[0]) && IsInt(items[1])
      then Ok(Span(IntOf(items[0]), IntOf(items[1])))
      else Err(ValueError)
    case Interval(a, b) => Ok(Span(a, b))
    case _ => Err(TypeError)
  }
}
