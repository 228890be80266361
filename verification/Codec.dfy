/**
 * The ramdb boundary: null fill, the int32 guard, and what repeated read-back
 * and rewrite does to a column.
 */
module Codec {
  import opened Util

  /** A column with its nulls; floats and timestamps keep theirs in the format. */
  datatype Column =
    | Ints(ints: seq<Option<int>>)
    | Strings(strings: seq<Option<string>>)
    | Bools(bools: seq<Option<bool>>)
    | Floats(floats: seq<Option<real>>)

  const INT_MIN := -0x8000_0000
  const INT_MAX := 0x7fff_ffff

  function OrElse<T>(cell: Option<T>, fill: T): Option<T> { if cell.Some? then cell else Some(fill) }

  function FillCells<T>(cells: seq<Option<T>>, fill: T): (r: seq<Option<T>>)
    ensures |r| == |cells| && forall i | 0 <= i < |r| :: r[i] == OrElse(cells[i], fill)
  {
    seq(|cells|, i requires 0 <= i < |cells| => OrElse(cells[i], fill))
  }

  function Fill(c: Column): Column {
    match c
    case Ints(s) => Ints(FillCells(s, 0))
    case Strings(s) => Strings(FillCells(s, ""))
    case Bools(s) => Bools(FillCells(s, false))
    case Floats(_) => c
  }

  /** Every cell that holds a value is as it was; every other one holds the fill. */
  predicate CellsFilled<T(==)>(before: seq<Option<T>>, after: seq<Option<T>>, fill: T) {
    && |after| == |before|
    && forall i | 0 <= i < |before| :: after[i] == Some(if before[i].Some? then before[i].value else fill)
  }

  /** Zero, the empty text and false for what is missing, by kind; floats keep their nulls. */
  predicate Filled(before: Column, after: Column) {
    match before
    case Ints(s) => after.Ints? && CellsFilled(s, after.ints, 0)
    case Strings(s) => after.Strings? && CellsFilled(s, after.strings, "")
    case Bools(s) => after.Bools? && CellsFilled(s, after.bools, false)
    case Floats(_) => after == before
  }

  predicate SameKind(a: Column, b: Column) {
    a.Ints? == b.Ints? && a.Strings? == b.Strings? && a.Bools? == b.Bools?
  }

  /** Concatenation of the same column in two frames. */
  function Concat(a: Column, b: Column): (c: Column)
    requires SameKind(a, b)
    ensures SameKind(a, c)
    ensures c.Ints? ==> a.ints <= c.ints && c.ints[|a.ints|..] == b.ints
    ensures c.Strings? ==> a.strings <= c.strings && c.strings[|a.strings|..] == b.strings
    ensures c.Bools? ==> a.bools <= c.bools && c.bools[|a.bools|..] == b.bools
    ensures c.Floats? ==> a.floats <= c.floats && c.floats[|a.floats|..] == b.floats
  {
    match a
    case Ints(s) => Ints(s + b.ints)
    case Strings(s) => Strings(s + b.strings)
    case Bools(s) => Bools(s + b.bools)
    case Floats(s) => Floats(s + b.floats)
  }

  /** Signed int32, as a silent codec would store a wider integer. */
  function Narrow(v: int): int { (v - INT_MIN) % 0x1_0000_0000 + INT_MIN }

  function NarrowCells(cells: seq<Option<int>>): (r: seq<Option<int>>)
    ensures |r| == |cells|
    ensures forall i | 0 <= i < |r| :: r[i] == if cells[i].Some? then Some(Narrow(cells[i].value)) else None
  {
    seq(|cells|, i requires 0 <= i < |cells| => if cells[i].Some? then Some(Narrow(cells[i].value)) else None)
  }

  /** What the codec gives back for a column it stored. */
  function Stored(c: Column): Column {
    match c case Ints(s) => Ints(NarrowCells(s)) case _ => c
  }

  predicate Unsafe(cell: Option<int>) { cell.Some? && !(INT_MIN <= cell.value <= INT_MAX) }

  /** The first unsafe integer of the first column that has one. */
  ghost predicate FirstUnsafe(frame: seq<Column>, c: nat, v: int) {
    && c < |frame| && frame[c].Ints?
    && (forall i | 0 <= i < c && frame[i].Ints? :: forall j | 0 <= j < |frame[i].ints| :: !Unsafe(frame[i].ints[j]))
    && exists j | 0 <= j < |frame[c].ints| ::
         frame[c].ints[j] == Some(v) && Unsafe(frame[c].ints[j])
         && forall k | 0 <= k < j :: !Unsafe(frame[c].ints[k])
  }

  lemma CellsIntactExactly(s: seq<Option<int>>)
    ensures NarrowCells(s) == s <==> forall j | 0 <= j < |s| :: !Unsafe(s[j])
  {
    if NarrowCells(s) == s {
      forall j | 0 <= j < |s| ensures !Unsafe(s[j]) {
        assert NarrowCells(s)[j] == s[j];
      }
    }
  }

  /**
   * The guard refuses, naming the first unsafe value, exactly when storing the
   * frame and reading it back would not give it back.
   */
  method RaiseOnUnsafe(frame: seq<Column>) returns (bad: Option<(nat, int)>)
    ensures bad.None? <==> forall i | 0 <= i < |frame| :: Stored(frame[i]) == frame[i]
    ensures bad.None? <==>
      forall i, j | 0 <= i < |frame| && frame[i].Ints? && 0 <= j < |frame[i].ints| && frame[i].ints[j].Some? ::
        -0x8000_0000 <= frame[i].ints[j].value < 0x8000_0000
    ensures bad.Some? ==> FirstUnsafe(frame, bad.value.0, bad.value.1)
  {
    for c := 0 to |frame|
      invariant forall i | 0 <= i < c :: Stored(frame[i]) == frame[i]
      invariant forall i | 0 <= i < c && frame[i].Ints? :: forall j | 0 <= j < |frame[i].ints| :: !Unsafe(frame[i].ints[j])
    {
      if frame[c].Ints? {
        var s := frame[c].ints;
        CellsIntactExactly(s);
        for j := 0 to |s|
          invariant forall k | 0 <= k < j :: !Unsafe(s[k])
        {
          if Unsafe(s[j]) {
            assert NarrowCells(s) != s;
            return Some((c, s[j].value));
          }
        }
      }
    }
    return None;
  }

  /** Fill, column by column, over a copy. */
  method ApplyNullFill(frame: seq<Column>) returns (filled: seq<Column>)
    ensures |filled| == |frame|
    ensures forall i | 0 <= i < |frame| :: filled[i] == Fill(frame[i]) && Filled(frame[i], filled[i])
  {
    filled := frame;
    for i := 0 to |frame|
      invariant |filled| == |frame|
      invariant forall j | 0 <= j < |frame| :: filled[j] == if j < i then Fill(frame[j]) else frame[j]
    {
      filled := filled[i := Fill(filled[i])];
    }
  }

  /** Filling what is already filled, before or after a merge, changes nothing. */
  lemma FillMerge(a: Column, b: Column)
    requires SameKind(a, b)
    ensures Fill(Fill(a)) == Fill(a)
    ensures SameKind(Fill(a), b) && Fill(Concat(Fill(a), b)) == Fill(Concat(a, b))
    ensures Fill(Concat(a, b)) == Concat(Fill(a), Fill(b))
  {
  }

  /** A column across pulls: each publish fills what was read back with the new batch appended. */
  function Republished(first: Column, batches: seq<Column>): (r: Column)
    requires forall i | 0 <= i < |batches| :: SameKind(first, batches[i])
    ensures SameKind(first, r)
  {
    if batches == [] then Fill(first)
    else
      var last := batches[|batches| - 1];
      assert SameKind(first, last);
      Fill(Concat(Republished(first, batches[..|batches| - 1]), last))
  }

  function Everything(first: Column, batches: seq<Column>): (r: Column)
    requires forall i | 0 <= i < |batches| :: SameKind(first, batches[i])
    ensures SameKind(first, r)
  {
    if batches == [] then first
    else
      var last := batches[|batches| - 1];
      assert SameKind(first, last);
      Concat(Everything(first, batches[..|batches| - 1]), last)
  }

  /** Any number of read-backs and rewrites equals filling the whole concatenation once. */
  lemma {:induction false} RepublishingFillsOnce(first: Column, batches: seq<Column>)
    requires forall i | 0 <= i < |batches| :: SameKind(first, batches[i])
    ensures Republished(first, batches) == Fill(Everything(first, batches))
    ensures Filled(Everything(first, batches), Republished(first, batches))
  {
    if batches != [] {
      var front, last := batches[..|batches| - 1], batches[|batches| - 1];
      RepublishingFillsOnce(first, front);
      FillMerge(Everything(first, front), last);
    }
  }
}
