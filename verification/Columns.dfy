/**
  Columnar results: chunks with a null bitmap each (src/hs2client/columnar-row-set.h), and
  their conversion into one array that stays native until a null is met
  (python/hs2client/converters.h).  The specification is the flat sequence of optional values.
*/
module Columns {
  import opened Options

  /** One fetched chunk of a column: the values and one null bit for each. */
  datatype Column<T> = Column(data: seq<T>, nulls: seq<bv8>)

  /** The bitmap has a bit for every row. */
  predicate Covered<T>(c: Column<T>) {
    |c.data| <= 8 * |c.nulls|
  }

  predicate AllCovered<T>(cs: seq<Column<T>>) {
    forall k :: 0 <= k < |cs| ==> Covered(cs[k])
  }

  /** `Column::IsNull`, which shifts a bit */
  predicate IsNull(bits: seq<bv8>, i: nat)
    requires i / 8 < |bits|
  {
    bits[i / 8] & ((1 as bv8) << (i % 8)) != 0
  }

  const BITMASK: seq<bv8> := [1, 2, 4, 8, 16, 32, 64, 128]

  /** `GetBit`, which looks a mask up */
  predicate GetBit(bits: seq<bv8>, i: nat)
    requires i / 8 < |bits|
  {
    bits[i / 8] & BITMASK[i % 8] != 0
  }

  lemma MaskIsShift(k: nat)
    requires k < 8
    ensures BITMASK[k] == (1 as bv8) << k
  {
    if k == 0 { } else if k == 1 { } else if k == 2 { } else if k == 3 { }
    else if k == 4 { } else if k == 5 { } else if k == 6 { } else { assert k == 7; }
  }

  /** The two ways of reading a null bit agree on every row of every bitmap. */
  lemma GetBitIsIsNull(bits: seq<bv8>, i: nat)
    requires i / 8 < |bits|
    ensures GetBit(bits, i) == IsNull(bits, i)
  {
    MaskIsShift(i % 8);
  }

  /** A row is null if its bit, counted from the lowest of its byte, is set. */
  lemma NullBitIsSet(bits: seq<bv8>, i: nat, b: bv8, k: nat)
    requires i / 8 < |bits| && b == bits[i / 8] && k == i % 8
    ensures IsNull(bits, i) <==> (b >> k) & 1 == 1
  {
    BitOfShift(b, k);
  }

  lemma BitOfShift(b: bv8, k: nat)
    requires k < 8
    ensures b & ((1 as bv8) << k) != 0 <==> (b >> k) & 1 == 1
  {
    if k == 0 { } else if k == 1 { } else if k == 2 { } else if k == 3 { }
    else if k == 4 { } else if k == 5 { } else if k == 6 { } else { assert k == 7; }
  }

  // ----- The rows that chunks stand for

  function Rows<T>(c: Column<T>): (rows: seq<Option<T>>)
    requires Covered(c)
    ensures |rows| == |c.data|
  {
    seq(|c.data|, j requires 0 <= j < |c.data| => if IsNull(c.nulls, j) then None else Some(c.data[j]))
  }

  lemma RowOf<T>(c: Column<T>, j: nat)
    requires Covered(c) && j < |c.data|
    ensures Rows(c)[j] == if GetBit(c.nulls, j) then None else Some(c.data[j])
  {
    GetBitIsIsNull(c.nulls, j);
  }

  function Flatten<T>(cs: seq<Column<T>>): seq<Option<T>>
    requires AllCovered(cs)
  {
    if cs == [] then [] else Flatten(cs[..|cs| - 1]) + Rows(cs[|cs| - 1])
  }

  /** The number of rows in the first `k` chunks. */
  function Start<T>(cs: seq<Column<T>>, k: nat): nat
    requires k <= |cs|
  {
    if k == 0 then 0 else Start(cs, k - 1) + |cs[k - 1].data|
  }

  lemma {:induction false} StartOfPrefix<T>(cs: seq<Column<T>>, n: nat, k: nat)
    requires k <= n <= |cs|
    ensures Start(cs[..n], k) == Start(cs, k)
    decreases k
  {
    if k > 0 { StartOfPrefix(cs, n, k - 1); }
  }

  lemma {:induction false} FlattenLength<T>(cs: seq<Column<T>>)
    requires AllCovered(cs)
    ensures |Flatten(cs)| == Start(cs, |cs|)
  {
    if cs != [] {
      FlattenLength(cs[..|cs| - 1]);
      StartOfPrefix(cs, |cs| - 1, |cs| - 1);
    }
  }

  /** Row `j` of chunk `k` is the flat row `Start(cs, k) + j`. */
  lemma {:induction false} ChunkRow<T>(cs: seq<Column<T>>, k: nat, j: nat)
    requires AllCovered(cs) && k < |cs| && j < |cs[k].data|
    ensures Start(cs, k) + j < |Flatten(cs)| && Flatten(cs)[Start(cs, k) + j] == Rows(cs[k])[j]
    decreases |cs|
  {
    var n := |cs| - 1;
    var b := cs[..n];
    assert Flatten(cs) == Flatten(b) + Rows(cs[n]);
    assert Start(b, k) == Start(cs, k) by { StartOfPrefix(cs, n, k); }
    if k < n {
      ChunkRow(b, k, j);
    } else {
      FlattenLength(b);
    }
  }

  lemma {:induction false} StartWithin<T>(cs: seq<Column<T>>, k: nat)
    requires AllCovered(cs) && k <= |cs|
    ensures Start(cs, k) <= |Flatten(cs)|
    decreases |cs| - k
  {
    if k == |cs| { FlattenLength(cs); } else { StartWithin(cs, k + 1); }
  }

  /** Chunk `k` is the flat rows from `Start(cs, k)` on. */
  lemma ChunkRows<T>(cs: seq<Column<T>>, k: nat)
    requires AllCovered(cs) && k < |cs|
    ensures Start(cs, k) + |cs[k].data| == Start(cs, k + 1) <= |Flatten(cs)|
    ensures forall j :: 0 <= j < |cs[k].data| ==> Flatten(cs)[Start(cs, k) + j] == Rows(cs[k])[j]
  {
    StartWithin(cs, k + 1);
    forall j | 0 <= j < |cs[k].data| ensures Flatten(cs)[Start(cs, k) + j] == Rows(cs[k])[j] {
      ChunkRow(cs, k, j);
    }
  }

  predicate NoNulls<T>(rows: seq<Option<T>>) {
    forall i :: 0 <= i < |rows| ==> rows[i].Some?
  }

  // ----- Conversion

  /** An array of the column's own type, or of a wider type that can hold nulls. */
  datatype Converted<T, P> = Native(values: seq<T>) | Promoted(wide: seq<P>)

  /** What a promoted array holds for a row. */
  function Slot<T, P>(row: Option<T>, missing: P, promote: T -> P): P {
    if row.None? then missing else promote(row.value)
  }

  /** What the conversion is, in terms of the flat rows alone. */
  function Convert<T, P>(rows: seq<Option<T>>, missing: P, promote: T -> P): Converted<T, P> {
    if NoNulls(rows) then Native(seq(|rows|, i requires 0 <= i < |rows| => rows[i].value))
    else Promoted(seq(|rows|, i requires 0 <= i < |rows| => Slot(rows[i], missing, promote)))
  }

  method GetColumns<T>(columns: seq<Column<T>>) returns (total: nat)
    requires AllCovered(columns)
    ensures total == |Flatten(columns)|
  {
    total := 0;
    for k := 0 to |columns|
      invariant total == Start(columns, k)
    {
      total := total + |columns[k].data|;
    }
    FlattenLength(columns);
  }

  /** One chunk of the first pass: stops at the first null, otherwise writes the chunk at `start`. */
  method FillChunk<T>(col: Column<T>, out: array<T>, start: nat) returns (haveNull: bool)
    requires Covered(col) && start + |col.data| <= out.Length
    modifies out
    ensures haveNull == !NoNulls(Rows(col))
    ensures !haveNull ==> forall j :: 0 <= j < |col.data| ==> Rows(col)[j] == Some(out[start + j])
    ensures forall x :: 0 <= x < start ==> out[x] == old(out[x])
  {
    var i := start;
    for j := 0 to |col.data|
      invariant i == start + j
      invariant forall x :: 0 <= x < j ==> Rows(col)[x] == Some(out[start + x])
      invariant forall x :: 0 <= x < start ==> out[x] == old(out[x])
    {
      RowOf(col, j);
      if GetBit(col.nulls, j) {
        return true;
      }
      out[i] := col.data[j];
      i := i + 1;
    }
    return false;
  }

  /** The optimistic first pass: fills the array up to the first null. */
  method FillNative<T>(columns: seq<Column<T>>, out: array<T>) returns (haveNull: bool)
    requires AllCovered(columns) && out.Length == |Flatten(columns)|
    modifies out
    ensures haveNull == !NoNulls(Flatten(columns))
    ensures !haveNull ==> forall x :: 0 <= x < out.Length ==> Flatten(columns)[x] == Some(out[x])
  {
    ghost var rows := Flatten(columns);
    FlattenLength(columns);
    var i := 0;
    for chunk := 0 to |columns|
      invariant i == Start(columns, chunk) <= out.Length
      invariant forall x :: 0 <= x < i ==> rows[x] == Some(out[x])
    {
      ChunkRows(columns, chunk);
      ghost var n, r := |columns[chunk].data|, Rows(columns[chunk]);
      haveNull := FillChunk(columns[chunk], out, i);
      if haveNull {
        ghost var j :| 0 <= j < n && r[j].None?;
        assert rows[i + j].None?;
        return;
      }
      forall x | i <= x < i + n ensures rows[x] == Some(out[x]) {
        assert rows[i + (x - i)] == r[x - i];
      }
      i := i + |columns[chunk].data|;
    }
    return false;
  }

  method FillPromotedChunk<T, P>(col: Column<T>, missing: P, promote: T -> P, out: array<P>, start: nat)
    requires Covered(col) && start + |col.data| <= out.Length
    modifies out
    ensures forall j :: 0 <= j < |col.data| ==> out[start + j] == Slot(Rows(col)[j], missing, promote)
    ensures forall x :: 0 <= x < start ==> out[x] == old(out[x])
  {
    var i := start;
    for j := 0 to |col.data|
      invariant i == start + j
      invariant forall x :: 0 <= x < j ==> out[start + x] == Slot(Rows(col)[x], missing, promote)
      invariant forall x :: 0 <= x < start ==> out[x] == old(out[x])
    {
      RowOf(col, j);
      out[i] := if GetBit(col.nulls, j) then missing else promote(col.data[j]);
      i := i + 1;
    }
  }

  /** The second pass, over all rows again, into the wider type. */
  method FillPromoted<T, P>(columns: seq<Column<T>>, missing: P, promote: T -> P, out: array<P>)
    requires AllCovered(columns) && out.Length == |Flatten(columns)|
    modifies out
    ensures forall x :: 0 <= x < out.Length ==> out[x] == Slot(Flatten(columns)[x], missing, promote)
  {
    ghost var rows := Flatten(columns);
    FlattenLength(columns);
    var i := 0;
    for chunk := 0 to |columns|
      invariant i == Start(columns, chunk) <= out.Length
      invariant forall x :: 0 <= x < i ==> out[x] == Slot(rows[x], missing, promote)
    {
      ChunkRows(columns, chunk);
      ghost var n, r := |columns[chunk].data|, Rows(columns[chunk]);
      FillPromotedChunk(columns[chunk], missing, promote, out, i);
      forall x | i <= x < i + n ensures out[x] == Slot(rows[x], missing, promote) {
        assert rows[i + (x - i)] == r[x - i];
        assert out[i + (x - i)] == Slot(r[x - i], missing, promote);
      }
      i := i + |columns[chunk].data|;
    }
  }

  method ConvertOptimistically<T(0), P(0)>(columns: seq<Column<T>>, missing: P, promote: T -> P)
    returns (r: Converted<T, P>)
    requires AllCovered(columns)
    ensures r == Convert(Flatten(columns), missing, promote)
  {
    var total := GetColumns(columns);
    var out := new T[total];
    var haveNull := FillNative(columns, out);
    if !haveNull {
      return Native(out[..]);
    }
    var wide := new P[total];
    FillPromoted(columns, missing, promote, wide);
    return Promoted(wide[..]);
  }

  /** A double, without its rounding. */
  datatype Double = NaN | Num(value: int)

  /** The array is native if and only if no row is null; otherwise NaN stands exactly for the nulls. */
  ghost predicate ShowsIntegers(rows: seq<Option<int>>, r: Converted<int, Double>) {
    && (r.Native? <==> NoNulls(rows))
    && |rows| == (if r.Native? then |r.values| else |r.wide|)
    && (r.Native? ==> forall i :: 0 <= i < |rows| ==> rows[i] == Some(r.values[i]))
    && (r.Promoted? ==> forall i :: 0 <= i < |rows| ==> rows[i] == if r.wide[i].NaN? then None else Some(r.wide[i].value))
  }

  method ConvertInteger(columns: seq<Column<int>>) returns (r: Converted<int, Double>)
    requires AllCovered(columns)
    ensures r == Convert(Flatten(columns), NaN, v => Num(v))
    ensures ShowsIntegers(Flatten(columns), r)
  {
    r := ConvertOptimistically(columns, NaN, v => Num(v));
  }

  /** The rows determine the array. */
  lemma IntegersDetermined(rows: seq<Option<int>>, x: Converted<int, Double>, y: Converted<int, Double>)
    requires ShowsIntegers(rows, x) && ShowsIntegers(rows, y)
    ensures x == y
  {
    if x.Native? {
      assert x.values == y.values;
    } else {
      assert forall i :: 0 <= i < |rows| ==> x.wide[i] == y.wide[i];
    }
  }

  /** The Python objects of a promoted boolean column. */
  datatype PyBool = PyNone | PyTrue | PyFalse

  /** The same for booleans, with None for the nulls. */
  ghost predicate ShowsBooleans(rows: seq<Option<bool>>, r: Converted<bool, PyBool>) {
    && (r.Native? <==> NoNulls(rows))
    && |rows| == (if r.Native? then |r.values| else |r.wide|)
    && (r.Native? ==> forall i :: 0 <= i < |rows| ==> rows[i] == Some(r.values[i]))
    && (r.Promoted? ==> forall i :: 0 <= i < |rows| ==> rows[i] == if r.wide[i].PyNone? then None else Some(r.wide[i].PyTrue?))
  }

  method ConvertBoolean(columns: seq<Column<bool>>) returns (r: Converted<bool, PyBool>)
    requires AllCovered(columns)
    ensures r == Convert(Flatten(columns), PyNone, b => if b then PyTrue else PyFalse)
    ensures ShowsBooleans(Flatten(columns), r)
  {
    r := ConvertOptimistically(columns, PyNone, b => if b then PyTrue else PyFalse);
  }

  lemma BooleansDetermined(rows: seq<Option<bool>>, x: Converted<bool, PyBool>, y: Converted<bool, PyBool>)
    requires ShowsBooleans(rows, x) && ShowsBooleans(rows, y)
    ensures x == y
  {
    if x.Native? {
      assert x.values == y.values;
    } else {
      assert forall i :: 0 <= i < |rows| ==> x.wide[i] == y.wide[i];
    }
  }
}
