/** The jump table behind every variable-length record list (channels, files,
    annotations, metas): one `(start, end)` pair per record, offsets relative
    to the table, records packed back to back. The table's own code
    (`bstruct.member_jumptable`) is not part of this model; only the append
    behaviour its callers rely on is: a new entry starts where the previous
    one ends. */
module JumpTable {

  datatype Entry = Entry(start: nat, end: nat)

  /** Append a record of `len` bytes: it starts at `firstStart` when the table
      is empty and at the previous record's end otherwise. */
  function Append(jt: seq<Entry>, len: nat, firstStart: nat): (r: seq<Entry>)
    ensures |r| == |jt| + 1 && r[..|jt|] == jt
    ensures r[|jt|].start == if |jt| == 0 then firstStart else jt[|jt| - 1].end
    ensures r[|jt|].end == r[|jt|].start + len
  {
    var s := if |jt| == 0 then firstStart else jt[|jt| - 1].end;
    jt + [Entry(s, s + len)]
  }

  /** The records follow one another from `firstStart` with no gap. */
  predicate Contiguous(jt: seq<Entry>, firstStart: nat)
  {
    && (|jt| > 0 ==> jt[0].start == firstStart)
    && (forall i | 0 <= i < |jt| :: jt[i].start <= jt[i].end)
    && (forall i | 0 <= i < |jt| - 1 :: jt[i + 1].start == jt[i].end)
  }

  /** Where the next record would start. */
  function NextStart(jt: seq<Entry>, firstStart: nat): nat
  {
    if |jt| == 0 then firstStart else jt[|jt| - 1].end
  }

  /** Appending keeps a table contiguous. */
  lemma AppendContiguous(jt: seq<Entry>, len: nat, firstStart: nat)
    requires Contiguous(jt, firstStart)
    ensures Contiguous(Append(jt, len, firstStart), firstStart)
    ensures NextStart(Append(jt, len, firstStart), firstStart) == NextStart(jt, firstStart) + len
  {
    var r := Append(jt, len, firstStart);
    forall i | 0 <= i < |r| - 1
      ensures r[i + 1].start == r[i].end
    {
      if i < |jt| - 1 {
        assert r[i] == jt[i] && r[i + 1] == jt[i + 1];
      } else {
        assert r[i] == jt[|jt| - 1];
      }
    }
  }

  /** `lens[0] + .. + lens[n-1]`. */
  function PrefixSum(lens: seq<nat>, n: nat): nat
    requires n <= |lens|
  {
    if n == 0 then 0 else PrefixSum(lens, n - 1) + lens[n - 1]
  }

  /** The table after appending the first `n` records of lengths `lens`. */
  function AppendAll(lens: seq<nat>, n: nat, firstStart: nat): (r: seq<Entry>)
    requires n <= |lens|
    ensures |r| == n
  {
    if n == 0 then [] else Append(AppendAll(lens, n - 1, firstStart), lens[n - 1], firstStart)
  }

  /** Appending records one after another gives a contiguous table whose next
      free offset is `firstStart` plus the total length. */
  lemma {:induction false} AppendAllContiguous(lens: seq<nat>, n: nat, firstStart: nat)
    requires n <= |lens|
    decreases n
    ensures Contiguous(AppendAll(lens, n, firstStart), firstStart)
    ensures NextStart(AppendAll(lens, n, firstStart), firstStart) == firstStart + PrefixSum(lens, n)
  {
    if n > 0 {
      AppendAllContiguous(lens, n - 1, firstStart);
      AppendContiguous(AppendAll(lens, n - 1, firstStart), lens[n - 1], firstStart);
    }
  }

  /** After appending records of lengths `L0 .. Ln-1`, entry `i` spans
      `[firstStart + L0 + .. + Li-1, firstStart + L0 + .. + Li)`. */
  lemma {:induction false} AppendAllEntry(lens: seq<nat>, n: nat, firstStart: nat, i: nat)
    requires i < n <= |lens|
    decreases n
    ensures AppendAll(lens, n, firstStart)[i].start == firstStart + PrefixSum(lens, i)
    ensures AppendAll(lens, n, firstStart)[i].end == firstStart + PrefixSum(lens, i + 1)
  {
    var jt := AppendAll(lens, n - 1, firstStart);
    if i < n - 1 {
      AppendAllEntry(lens, n - 1, firstStart, i);
      assert AppendAll(lens, n, firstStart)[i] == jt[i];
    } else {
      AppendAllContiguous(lens, n - 1, firstStart);
    }
  }
}
