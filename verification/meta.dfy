/** The WIFFMETA chunk of `wiff/wiffmeta.py`: chunk and header set-up, the
    type guess for a meta value, and `add_meta` as far as the source takes
    it (argument normalisation and the planned record length). */
module Meta {
  import opened Errors
  import opened Py
  import opened Structs
  import Util
  import Wave
  import Anno

  // ---- initchunk and initheader

  /** `initchunk(compression)`: the two-page set-up shared with WIFFANNO. */
  function InitChunk(file: Util.Store, compression: Option<string>): Result<(Util.Store, Wave.ChunkInit)>
  {
    Anno.TwoPageChunk(file, "WIFFMETA", compression)
  }

  /** The WIFFMETA header: the record count and the offset of the jump table. */
  datatype MetaHeader = MetaHeader(numMetas: nat, indexMetas: nat)

  /** `initheader()`: no records, and the jump table right after the six
      fixed header bytes (a u32 count and a u16 offset). */
  function InitHeader(): (r: MetaHeader)
    ensures r.numMetas == 0
    ensures r.indexMetas == METAS_INDEX_METAS + 2 && r.indexMetas == METAS_FIXED
  {
    MetaHeader(0, METAS_FIXED)
  }

  // ---- guess_type

  /** The signed integer types, narrowest first. */
  const INT_TYPES: seq<MetaType> := [INT8, INT16, INT32, INT64]

  /** `2**(8w-1)` for an integer type of `w` bytes: the type holds exactly
      the values `v` with `-B <= v < B`. */
  function Half(t: MetaType): nat
  {
    match t
    case INT8 => 0x80
    case INT16 => 0x8000
    case INT32 => 0x8000_0000
    case INT64 => 0x8000_0000_0000_0000
    case _ => 0
  }

  /** Integer type `t` can hold `v`. */
  predicate Holds(t: MetaType, v: int)
  {
    -(Half(t) as int) <= v < Half(t)
  }

  /** The bounds belong to the element widths the meta data plan uses. */
  lemma HalfIsWidth(t: MetaType)
    requires t in INT_TYPES
    ensures 2 * Half(t) == Bytes.Pow256(ElementWidth(TypeValue(t)))
  {
    assert Bytes.Pow256(1) == 0x100;
    assert Bytes.Pow256(2) == 0x1_0000;
    assert Bytes.Pow256(4) == 0x1_0000_0000 by {
      assert Bytes.Pow256(3) == 0x100_0000;
    }
    assert Bytes.Pow256(8) == 0x1_0000_0000_0000_0000 by {
      assert Bytes.Pow256(5) == 0x100_0000_0000;
      assert Bytes.Pow256(6) == 0x1_0000_0000_0000;
      assert Bytes.Pow256(7) == 0x100_0000_0000_0000;
    }
  }

  /** The integer type for values between `mn` and `mx`: the thresholds
      are tried narrowest first, and beyond 64 bits it is a `ValueError`.
      The result is the narrowest type that holds both bounds. */
  function IntRange(mn: int, mx: int): (r: Result<MetaType>)
    requires mn <= mx
    ensures r.Ok? <==> Holds(INT64, mn) && Holds(INT64, mx)
    ensures r.Err? ==> r.error == ValueError
    ensures r.Ok? ==>
      && r.value in INT_TYPES && Holds(r.value, mn) && Holds(r.value, mx)
      && forall u | u in INT_TYPES && Half(u) < Half(r.value) :: !(Holds(u, mn) && Holds(u, mx))
  {
    if mx < 0x80 && mn >= -0x80 then Ok(INT8)
    else if mx < 0x8000 && mn >= -0x8000 then Ok(INT16)
    else if mx < 0x8000_0000 && mn >= -0x8000_0000 then Ok(INT32)
    else if mx < 0x8000_0000_0000_0000 && mn >= -0x8000_0000_0000_0000 then Ok(INT64)
    else Err(ValueError)
  }

  /** The smallest of a non-empty list of integers. */
  function MinOf(xs: seq<int>): (r: int)
    requires |xs| > 0
    ensures r in xs && forall i | 0 <= i < |xs| :: r <= xs[i]
  {
    if |xs| == 1 then xs[0]
    else
      var m := MinOf(xs[1..]);
      assert forall i | 1 <= i < |xs| :: xs[i] == xs[1..][i - 1];
      if xs[0] <= m then xs[0] else m
  }

  /** The largest of a non-empty list of integers. */
  function MaxOf(xs: seq<int>): (r: int)
    requires |xs| > 0
    ensures r in xs && forall i | 0 <= i < |xs| :: xs[i] <= r
  {
    if |xs| == 1 then xs[0]
    else
      var m := MaxOf(xs[1..]);
      assert forall i | 1 <= i < |xs| :: xs[i] == xs[1..][i - 1];
      if xs[0] >= m then xs[0] else m
  }

  /** The integers of a list whose items are all `int`. */
  function Ints(items: seq<Value>): (r: seq<int>)
    requires forall i | 0 <= i < |items| :: items[i].Int?
    ensures |r| == |items| && forall i | 0 <= i < |items| :: r[i] == items[i].i
  {
    seq(|items|, i requires 0 <= i < |items| => items[i].i)
  }

  /** Every item has the type of the first (`type(_) == type(data[0])`). */
  predicate AllSameType(items: seq<Value>)
    requires |items| > 0
  {
    forall i | 0 <= i < |items| :: SameType(items[i], items[0])
  }

  /** `guess_type(data)`. A list or tuple needs a first item (`IndexError`)
      and items all of its exact type (`TypeError`; `bool` is not `int`
      here); integers get the narrowest type holding their minimum and
      maximum. The list branches for floats and strings name
      `TYPE_FLOAT64` and `TYPE_STRING`, which `metas_struct` does not
      define, so they raise `AttributeError`. A single value uses
      `isinstance`: an `int` (`bool` included) gets the narrowest type
      that holds it, a float `FLOAT64`, a string `STRING`, and anything
      else is a `TypeError`. */
  function GuessType(data: Value): (r: Result<MetaType>)
    ensures (data.List? || data.Tuple?) && |data.items| == 0 ==> r == Err(IndexError)
    ensures (data.List? || data.Tuple?) && |data.items| > 0 && !AllSameType(data.items) ==> r == Err(TypeError)
    ensures IsInt(data) ==> r == IntRange(IntOf(data), IntOf(data))
    ensures data.Float? ==> r == Ok(FLOAT64)
    ensures data.Str? ==> r == Ok(STRING)
    ensures !data.List? && !data.Tuple? && !IsInt(data) && !data.Float? && !data.Str? ==> r == Err(TypeError)
  {
    match data
    case List(items) => GuessItems(items)
    case Tuple(items) => GuessItems(items)
    case Int(v) => IntRange(v, v)
    case Bool(b) => IntRange(IntOf(data), IntOf(data))
    case Float => Ok(FLOAT64)
    case Str(_) => Ok(STRING)
    case _ => Err(TypeError)
  }

  /** The list and tuple branch of `guess_type`. */
  function GuessItems(items: seq<Value>): (r: Result<MetaType>)
  {
    if |items| == 0 then Err(IndexError)
    else if !AllSameType(items) then Err(TypeError)
    else if items[0].Int? then
      assert forall i | 0 <= i < |items| :: items[i].Int? by {
        forall i | 0 <= i < |items| ensures items[i].Int? {
          assert SameType(items[i], items[0]);
        }
      }
      IntRange(MinOf(Ints(items)), MaxOf(Ints(items)))
    else if items[0].Float? || items[0].Str? then Err(AttributeError)
    else Err(TypeError)
  }

  /** A single integer gets the narrowest type that holds it, and only one
      beyond 64 bits is refused. */
  lemma GuessIntSmallest(v: int)
    ensures GuessType(Int(v)).Ok? <==> Holds(INT64, v)
    ensures GuessType(Int(v)).Ok? ==>
      var t := GuessType(Int(v)).value;
      && t in INT_TYPES && Holds(t, v)
      && forall u | u in INT_TYPES && Half(u) < Half(t) :: !Holds(u, v)
  {
  }

  /** A list of integers gets the narrowest type that holds every item:
      every item fits it, and for each narrower type some item does not. */
  lemma GuessListSmallest(items: seq<Value>)
    requires |items| > 0 && forall i | 0 <= i < |items| :: items[i].Int?
    ensures GuessType(List(items)).Ok? <==> forall i | 0 <= i < |items| :: Holds(INT64, items[i].i)
    ensures GuessType(List(items)).Ok? ==>
      var t := GuessType(List(items)).value;
      && t in INT_TYPES
      && (forall i | 0 <= i < |items| :: Holds(t, items[i].i))
      && forall u | u in INT_TYPES && Half(u) < Half(t) :: exists i | 0 <= i < |items| :: !Holds(u, items[i].i)
  {
    assert AllSameType(items);
    var xs := Ints(items);
    var mn := MinOf(xs);
    var mx := MaxOf(xs);
    assert GuessType(List(items)) == IntRange(mn, mx);
    var j0 :| 0 <= j0 < |xs| && xs[j0] == mn;
    var j1 :| 0 <= j1 < |xs| && xs[j1] == mx;
    if GuessType(List(items)).Ok? {
      var t := GuessType(List(items)).value;
      forall u | u in INT_TYPES && Half(u) < Half(t)
        ensures exists i | 0 <= i < |items| :: !Holds(u, items[i].i)
      {
        if Holds(u, mn) {
          assert !Holds(u, items[j1].i);
        } else {
          assert !Holds(u, items[j0].i);
        }
      }
    } else {
      if Holds(INT64, mn) {
        assert !Holds(INT64, items[j1].i);
      } else {
        assert !Holds(INT64, items[j0].i);
      }
    }
  }

  /** `type(True) is bool`, so booleans in a list are not integers there,
      while a single boolean passes `isinstance(data, int)`. */
  lemma GuessBool(b: bool)
    ensures GuessType(Bool(b)) == Ok(INT8)
    ensures GuessType(List([Bool(b)])) == Err(TypeError)
    ensures GuessType(List([Int(1), Bool(b)])) == Err(TypeError)
  {
    assert !AllSameType([Int(1), Bool(b)]) by {
      assert !SameType([Int(1), Bool(b)][1], [Int(1), Bool(b)][0]);
    }
  }

  // ---- add_meta

  /** The `level` argument: a string, an `int`-like value, a `LEVEL`
      member, or something else. */
  datatype LevelArg = Named(name: string) | Numbered(v: Value) | Member(l: Level) | Unsupported

  /** What `level` holds after the conversion at the top of `add_meta`.
      `level_from_string` returns the member's `.value`, a plain `int`, while
      `LEVEL(n)` returns the member itself. */
  datatype LevelHeld = HeldMember(l: Level) | HeldInt(v: int)

  /** The level conversion as written: a name becomes its integer value,
      an integer its member (`ValueError` if none), a member stays, and
      anything else is a `TypeError`. */
  function ConvertLevelAsWritten(level: LevelArg): (r: Result<LevelHeld>)
    ensures level.Named? && r.Ok? ==> r.value.HeldInt?
  {
    match level
    case Named(s) =>
      var v :- LevelFromString(s);
      Ok(HeldInt(v))
    case Numbered(v) =>
      if IsInt(v) then
        var l :- LevelOf(IntOf(v));
        Ok(HeldMember(l))
      else Err(TypeError)
    case Member(l) => Ok(HeldMember(l))
    case Unsupported => Err(TypeError)
  }

  /** The level and index `add_meta` goes on with, as written: the index
      is forced to 0 only when `level == LEVEL.RECORDING`, which an `int`
      never equals (`LEVEL` is a plain `Enum`). */
  function LevelAndIndexAsWritten(level: LevelArg, index: int): (r: Result<(LevelHeld, int)>)
  {
    var held :- ConvertLevelAsWritten(level);
    Ok((held, if held == HeldMember(RECORDING) then 0 else index))
  }

  /** Naming the recording level by string keeps the index given: the
      level is held as the integer 0, which is not the enum member. */
  lemma RecordingByNameKeepsIndex(index: int)
    ensures LevelAndIndexAsWritten(Named("recording"), index) == Ok((HeldInt(0), index))
    ensures LevelAndIndexAsWritten(Member(RECORDING), index) == Ok((HeldMember(RECORDING), 0))
  {
    assert Upper("recording") == "RECORDING";
  }

  /** The level conversion as intended: every accepted form yields the
      `LEVEL` member, so the recording level always takes index 0. */
  function ConvertLevel(level: LevelArg): (r: Result<Level>)
  {
    match level
    case Named(s) => LevelNamed(Upper(s))
    case Numbered(v) => if IsInt(v) then LevelOf(IntOf(v)) else Err(TypeError)
    case Member(l) => Ok(l)
    case Unsupported => Err(TypeError)
  }

  function LevelAndIndex(level: LevelArg, index: int): (r: Result<(Level, int)>)
  {
    var l :- ConvertLevel(level);
    Ok((l, if l == RECORDING then 0 else index))
  }

  /** Every form of a level names the same member: a name (in any case),
      its integer value and the member itself; the recording level always
      takes index 0 and every other level keeps the index given. The
      accepted forms agree with the written conversion on the member. */
  lemma LevelAndIndexSpec(l: Level, index: int)
    ensures LevelAndIndex(Member(l), index) == Ok((l, if l == RECORDING then 0 else index))
    ensures LevelAndIndex(Numbered(Int(LevelValue(l))), index) == LevelAndIndex(Member(l), index)
    ensures LevelAndIndex(Named(LevelName(l)), index) == LevelAndIndex(Member(l), index)
    ensures LevelAndIndex(Named(Lower(LevelName(l))), index) == LevelAndIndex(Member(l), index)
    ensures ConvertLevelAsWritten(Named(LevelName(l))) == Ok(HeldInt(LevelValue(l)))
  {
    LevelNameUpper(l);
    LevelNamedSpec(l);
    assert Upper(Lower(LevelName(l))) == Upper(LevelName(l));
    assert LevelOf(LevelValue(l)) == Ok(l) by {
      match l
      case RECORDING =>
      case CHANNEL =>
      case FILE =>
      case FRAME =>
      case ANNOTATION =>
      case META =>
    }
  }

  /** The intended conversion fails exactly where the written one does,
      with the same error, and otherwise holds the same level: the member,
      or for a name the member's integer value. */
  lemma ConvertLevelAgrees(level: LevelArg)
    ensures ConvertLevel(level).Ok? <==> ConvertLevelAsWritten(level).Ok?
    ensures ConvertLevel(level).Err? ==> ConvertLevel(level).error == ConvertLevelAsWritten(level).error
    ensures ConvertLevel(level).Ok? ==>
      ConvertLevelAsWritten(level).value ==
        if level.Named? then HeldInt(LevelValue(ConvertLevel(level).value)) else HeldMember(ConvertLevel(level).value)
  {
  }

  /** The `data_type` argument: absent, a `TYPE` member, or something else. */
  datatype TypeArg = Guess | Given(t: MetaType) | NotAType

  /** `tuple(data)` for a value that is not already a list or tuple: a
      string gives its characters, bytes their values, and anything that
      cannot be iterated is a `TypeError`. */
  function AsItems(data: Value): (r: Result<seq<Value>>)
    ensures (data.List? || data.Tuple?) ==> r == Ok(data.items)
    ensures data.Str? ==> r.Ok? && |r.value| == |data.s| && forall i | 0 <= i < |data.s| :: r.value[i] == Str([data.s[i]])
    ensures data.Bytes? ==> r.Ok? && |r.value| == |data.bs| && forall i | 0 <= i < |data.bs| :: r.value[i] == Int(data.bs[i] as int)
    ensures !data.List? && !data.Tuple? && !data.Str? && !data.Bytes? ==> r == Err(TypeError)
  {
    match data
    case List(items) => Ok(items)
    case Tuple(items) => Ok(items)
    case Str(s) => Ok(seq(|s|, i requires 0 <= i < |s| => Str([s[i]])))
    case Bytes(bs) => Ok(seq(|bs|, i requires 0 <= i < |bs| => Int(bs[i] as int)))
    case _ => Err(TypeError)
  }

  /** The UTF-8 bytes a string item becomes. Only their number enters the
      planned length, so the model keeps the count and not the encoding. */
  function EncodedLen(v: Value): Value
  {
    if v.Str? then Bytes(Bytes.Zeros(Utf8Len(v.s))) else v
  }

  /** `[_.encode('utf-8') for _ in data]`, by length. */
  function EncodeAll(items: seq<Value>): (r: seq<Value>)
    ensures |r| == |items| && forall i | 0 <= i < |items| :: r[i] == EncodedLen(items[i])
  {
    seq(|items|, i requires 0 <= i < |items| => EncodedLen(items[i]))
  }

  /** The normalised arguments and the planned lengths (`ln`, `kln`, `dln`). */
  datatype MetaPlan = MetaPlan(level: Level, levelIndex: int, dataType: MetaType, ln: nat, kln: nat, dln: nat)

  /** `add_meta(level, level_index, key, data, data_type)` as far as the
      source goes before it stops: the level conversion (with the recording
      level forced to index 0), a `str` key (`ValueError`), the data type
      (guessed, or a `TYPE` member, else `TypeError`), the data as a
      sequence, string items encoded (a later item that is not a string has
      no `encode`: `AttributeError`), and the planned record, key and data
      lengths. An empty sequence of data fails on `data[0]`. */
  function AddMetaPlan(level: LevelArg, index: int, key: Value, data: Value, dataType: TypeArg): (r: Result<MetaPlan>)
    ensures r.Ok? ==> key.Str? && r.value.kln == Utf8Len(key.s)
    ensures r.Ok? ==> r.value.ln == META_FIXED + r.value.kln + r.value.dln
    ensures r.Ok? ==> ConvertLevel(level) == Ok(r.value.level)
    ensures r.Ok? ==> r.value.levelIndex == if r.value.level == RECORDING then 0 else index
    ensures ConvertLevel(level).Ok? && !key.Str? ==> r == Err(ValueError)
  {
    var (l, idx) :- LevelAndIndex(level, index);
    if !key.Str? then Err(ValueError)
    else
      var t :- match dataType
        case Guess => GuessType(data)
        case Given(t) => Ok(t)
        case NotAType => Err(TypeError);
      var items :- AsItems(data);
      if |items| == 0 then Err(IndexError)
      else if items[0].Str? && exists i | 0 <= i < |items| :: !items[i].Str? then Err(AttributeError)
      else
        var encoded := if items[0].Str? then EncodeAll(items) else items;
        var k := Bytes(Bytes.Zeros(Utf8Len(key.s)));
        var ln :- MetaLenplan(k, TypeValue(t), List(encoded));
        Ok(MetaPlan(l, idx, t, ln, Utf8Len(key.s), MetaDataLenplan(TypeValue(t), List(encoded)).value))
  }

  /** A single integer is a valid guess but cannot be made a sequence, so
      `add_meta` with one integer as data always fails. */
  lemma AddMetaScalarInt(level: LevelArg, index: int, key: Value, v: int, dataType: TypeArg)
    ensures AddMetaPlan(level, index, key, Int(v), dataType).Err?
  {
  }

  /** For `n` ASCII characters of string data with the type guessed, the
      record plans 16 bytes, the key's UTF-8 bytes, and a string array of
      2 bytes plus 4 per string plus one byte per character. */
  lemma AddMetaStringPlan(level: LevelArg, index: int, key: string, s: string)
    requires ConvertLevel(level).Ok?
    requires IsAscii(s) && |s| > 0
    ensures AddMetaPlan(level, index, Str(key), Str(s), Guess).Ok?
    ensures var p := AddMetaPlan(level, index, Str(key), Str(s), Guess).value;
      && p.dataType == STRING
      && p.dln == 2 + 5 * |s|
      && p.ln == META_FIXED + Utf8Len(key) + 2 + 5 * |s|
  {
    var items := AsItems(Str(s)).value;
    var encoded := EncodeAll(items);
    assert forall i | 0 <= i < |s| :: encoded[i] == Bytes(Bytes.Zeros(1)) by {
      forall i | 0 <= i < |s| ensures encoded[i] == Bytes(Bytes.Zeros(1)) {
        assert items[i] == Str([s[i]]);
        assert Utf8Len([s[i]]) == Utf8Width(s[i]) + Utf8Len([s[i]][1..]);
        assert [s[i]][1..] == [];
      }
    }
    SingleBytesLen(encoded);
  }

  /** Items that are each one byte long have a total length equal to their
      number. */
  lemma {:induction false} SingleBytesLen(vs: seq<Value>)
    requires forall i | 0 <= i < |vs| :: vs[i] == Bytes(Bytes.Zeros(1))
    ensures LensSum(vs) == Ok(|vs|)
  {
    if |vs| > 0 {
      assert forall i | 0 <= i < |vs[1..]| :: vs[1..][i] == vs[i + 1];
      SingleBytesLen(vs[1..]);
    }
  }
}
