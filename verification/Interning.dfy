/**
  Conversion of string columns (python/hs2client/converters.h): equal strings become one
  object through an intern table, with reference counts kept by hand.
*/
module Interning {
  import opened Options
  import opened Columns

  type Object = nat

  /**
    The interpreter's string objects: reference counts, contents, and strings for which it keeps one
    shared object.  An object whose count is zero has been freed.
  */
  datatype Strings = Strings(
    refs: map<Object, nat>,
    text: map<Object, string>,
    shared: map<string, Object>,
    next: Object)
  {

    ghost predicate Valid() {
      && text.Keys == refs.Keys
      && (forall o :: o in refs ==> o < next)
      && (forall s :: s in shared ==> Refs(shared[s]) > 0 && text[shared[s]] == s)
    }

    /** The reference count of an object, zero if it does not exist. */
    function Refs(o: Object): nat {
      if o in refs then refs[o] else 0
    }

    /** No object that existed before has changed its contents. */
    ghost predicate Extends(before: Strings) {
      shared == before.shared && forall o :: o in before.text ==> o in text && text[o] == before.text[o]
    }
  }

  class Interpreter {
    var strings: Strings
    var noneRefs: nat

    constructor (s: Strings, n: nat)
      ensures strings == s && noneRefs == n
    {
      strings, noneRefs := s, n;
    }

    method IncRef(o: Object)
      requires strings.Valid() && strings.Refs(o) > 0
      modifies this`strings
      ensures strings.Valid() && strings.Extends(old(strings)) && strings.text == old(strings.text)
      ensures forall x :: strings.Refs(x) == old(strings).Refs(x) + if x == o then 1 else 0
    {
      strings := strings.(refs := strings.refs[o := strings.refs[o] + 1]);
    }

    method DecRef(o: Object)
      requires strings.Valid() && strings.Refs(o) > 0
      requires strings.text[o] in strings.shared && strings.shared[strings.text[o]] == o ==> strings.Refs(o) > 1
      modifies this`strings
      ensures strings.Valid() && strings.Extends(old(strings)) && strings.text == old(strings.text)
      ensures forall x :: strings.Refs(x) == old(strings).Refs(x) - if x == o then 1 else 0
    {
      strings := strings.(refs := strings.refs[o := strings.refs[o] - 1]);
    }

    /** `PyUnicode_FromStringAndSize`: a new object, or one more reference to a shared one. */
    method FromString(s: string) returns (o: Object)
      requires strings.Valid()
      modifies this`strings
      ensures strings.Valid() && strings.Extends(old(strings))
      ensures o in strings.text && strings.text[o] == s
      ensures forall x :: strings.Refs(x) == old(strings).Refs(x) + if x == o then 1 else 0
      ensures if s in strings.shared then o == strings.shared[s] else o !in old(strings).text
    {
      if s in strings.shared {
        o := strings.shared[s];
        strings := strings.(refs := strings.refs[o := strings.refs[o] + 1]);
      } else {
        o := strings.next;
        strings := Strings(strings.refs[o := 1], strings.text[o := s], strings.shared, strings.next + 1);
      }
    }

    /** `make_pystring`: a new reference to the object that stands for this string. */
    method MakePystring(s: string, table: Table) returns (o: Object, table': Table)
      requires strings.Valid() && ValidTable(strings, table)
      modifies this`strings
      ensures strings.Valid()
      ensures table' == if s in table then table else table[s := o]
      ensures Interned(old(strings), strings, s, table, o)
    {
      assert s in table ==> ValidEntry(strings, s, table[s]);
      var str := FromString(s);
      if s !in table {
        table' := table[s := str];
        IncRef(str);
        IncRef(str);
        o := str;
      } else {
        table' := table;
        DecRef(str);
        o := table[s];
        IncRef(o);
      }
    }

    /** `Py_DECREF` of the dictionary: its two references to every string go away. */
    method ReleaseTable(table: Table)
      requires strings.Valid() && ValidTable(strings, table)
      requires forall s :: s in table ==> strings.Refs(table[s]) > 2
      modifies this`strings
      ensures strings.Valid() && strings.text == old(strings).text && strings.shared == old(strings).shared
      ensures forall x :: strings.Refs(x) == old(strings).Refs(x) - Held(old(strings), table, x)
    {
      var rest := table;
      ghost var before := strings;
      while rest != map[]
        invariant strings.Valid() && strings.text == before.text && strings.shared == before.shared
        invariant forall s :: s in rest ==> s in table && rest[s] == table[s]
        invariant forall x :: ReleasedAt(before, strings, table, rest, x)
        decreases |rest|
      {
        var s :| s in rest;
        var o := rest[s];
        ghost var st := strings;
        assert ValidEntry(before, s, table[s]);
        assert ReleasedAt(before, st, table, rest, o);
        DecRef(o);
        DecRef(o);
        forall x ensures ReleasedAt(before, strings, table, rest - {s}, x) {
          assert ReleasedAt(before, st, table, rest, x);
          HeldRemove(before, rest, s, x);
        }
        rest := rest - {s};
      }
      forall x ensures strings.Refs(x) == before.Refs(x) - Held(before, table, x) {
        assert ReleasedAt(before, strings, table, rest, x);
      }
    }
  }

  /** The intern table: a dictionary that holds two references, as key and as value, to each of its strings. */
  type Table = map<string, Object>

  ghost predicate ValidTable(st: Strings, table: Table) {
    forall s {:trigger ValidEntry(st, s, table[s])} :: s in table ==> ValidEntry(st, s, table[s])
  }

  ghost predicate ValidEntry(st: Strings, s: string, o: Object) {
    && st.Refs(o) > 0 && o in st.text && st.text[o] == s
    && (s in st.shared ==> o == st.shared[s])
  }

  /** The references that the table holds to an object. */
  ghost function Held(st: Strings, table: Table, o: Object): nat {
    if o in st.text && st.text[o] in table && table[st.text[o]] == o then 2 else 0
  }

  /** References to `x` while only the entries in `rest` still hold theirs. */
  ghost predicate ReleasedAt(before: Strings, st: Strings, table: Table, rest: Table, x: Object) {
    st.Refs(x) == before.Refs(x) - Held(before, table, x) + Held(before, rest, x)
  }

  lemma HeldRemove(st: Strings, table: Table, s: string, x: Object)
    requires s in table && table[s] in st.text && st.text[table[s]] == s
    ensures Held(st, table - {s}, x) == if x == table[s] then 0 else Held(st, table, x)
  {
  }

  /** The caller has one new reference to `o`, which stands for `s`; a new table entry adds its own two. */
  ghost predicate Interned(before: Strings, after: Strings, s: string, table: Table, o: Object) {
    && after.Extends(before)
    && o in after.text && after.text[o] == s
    && (forall x :: after.Refs(x) == before.Refs(x) + if x != o then 0 else if s in table then 1 else 3)
    && if s in table then table[s] == o
       else if s in before.shared then o == before.shared[s]
       else o !in before.text
  }

  // ----- The output array

  datatype Slot = NoneSlot | Ref(obj: Object)

  function Count(out: seq<Slot>, x: Slot): nat {
    if out == [] then 0 else Count(out[..|out| - 1], x) + if out[|out| - 1] == x then 1 else 0
  }

  lemma CountSnoc(out: seq<Slot>, slot: Slot, x: Slot)
    ensures Count(out + [slot], x) == Count(out, x) + if slot == x then 1 else 0
  {
    assert (out + [slot])[..|out|] == out;
  }

  /** Slots show the rows: None for a null, and the table's object for a string. */
  ghost predicate Shows(rows: seq<Option<string>>, out: seq<Slot>, table: Table) {
    && |out| == |rows|
    && forall i {:trigger SlotShows(rows[i], out[i], table)} :: 0 <= i < |rows| ==> SlotShows(rows[i], out[i], table)
  }

  ghost predicate SlotShows(row: Option<string>, slot: Slot, table: Table) {
    match row
    case None => slot == NoneSlot
    case Some(s) => s in table && slot == Ref(table[s])
  }

  /** Every reference is accounted for: the ones from before, one per slot, and the two of the table. */
  ghost predicate Accounted(base: Strings, st: Strings, out: seq<Slot>, table: Table) {
    && st.Valid() && ValidTable(st, table) && st.Extends(base)
    && (forall o :: AccountedObject(base, st, out, table, o))
    && (forall s {:trigger AccountedEntry(base, st, out, s, table[s])} ::
          s in table ==> AccountedEntry(base, st, out, s, table[s]))
  }

  ghost predicate AccountedObject(base: Strings, st: Strings, out: seq<Slot>, table: Table, o: Object) {
    st.Refs(o) == base.Refs(o) + Count(out, Ref(o)) + Held(st, table, o)
  }

  /** A table entry has been used, and its object is new unless the interpreter shares it. */
  ghost predicate AccountedEntry(base: Strings, st: Strings, out: seq<Slot>, s: string, o: Object) {
    Count(out, Ref(o)) > 0 && (s !in st.shared ==> o !in base.text)
  }

  lemma ShowsStep(rows: seq<Option<string>>, out: seq<Slot>, table: Table,
                  row: Option<string>, slot: Slot, table': Table)
    requires Shows(rows, out, table) && SlotShows(row, slot, table')
    requires forall s :: s in table ==> s in table' && table'[s] == table[s]
    ensures Shows(rows + [row], out + [slot], table')
  {
    var rows', out' := rows + [row], out + [slot];
    forall i | 0 <= i < |rows'| ensures SlotShows(rows'[i], out'[i], table') {
      if i < |rows| { assert SlotShows(rows[i], out[i], table); }
    }
  }

  lemma AccountedNull(base: Strings, st: Strings, out: seq<Slot>, table: Table)
    requires Accounted(base, st, out, table)
    ensures Accounted(base, st, out + [NoneSlot], table)
  {
    forall o ensures AccountedObject(base, st, out + [NoneSlot], table, o) {
      assert AccountedObject(base, st, out, table, o);
      CountSnoc(out, NoneSlot, Ref(o));
    }
    forall s | s in table ensures AccountedEntry(base, st, out + [NoneSlot], s, table[s]) {
      assert AccountedEntry(base, st, out, s, table[s]);
      CountSnoc(out, NoneSlot, Ref(table[s]));
    }
  }

  /** A new table entry is for an object that no other entry is for. */
  lemma HeldAdd(before: Strings, after: Strings, s: string, table: Table, o: Object, x: Object)
    requires ValidTable(before, table) && Interned(before, after, s, table, o) && s !in table
    requires before.Valid() && after.Valid()
    ensures Held(after, table[s := o], x) == if x == o then 2 else Held(before, table, x)
    ensures Held(before, table, o) == 0
  {
    if x in before.text {
      assert after.text[x] == before.text[x];
    } else if x in after.text && after.text[x] in table {
      assert ValidEntry(before, after.text[x], table[after.text[x]]);
    }
    if o in before.text { assert after.text[o] == before.text[o]; }
  }

  lemma HeldSame(before: Strings, after: Strings, table: Table, x: Object)
    requires ValidTable(before, table) && after.Extends(before)
    ensures Held(after, table, x) == Held(before, table, x)
  {
    if x in before.text {
    } else if x in after.text && after.text[x] in table {
      assert ValidEntry(before, after.text[x], table[after.text[x]]);
    }
  }

  lemma AccountedText(base: Strings, st: Strings, st': Strings, out: seq<Slot>, table: Table, s: string, o: Object)
    requires Accounted(base, st, out, table) && Interned(st, st', s, table, o) && st'.Valid()
    ensures Accounted(base, st', out + [Ref(o)], if s in table then table else table[s := o])
  {
    var out', table' := out + [Ref(o)], if s in table then table else table[s := o];
    forall x ensures AccountedObject(base, st', out', table', x) {
      assert AccountedObject(base, st, out, table, x);
      CountSnoc(out, Ref(o), Ref(x));
      if s in table { HeldSame(st, st', table, x); } else { HeldAdd(st, st', s, table, o, x); }
    }
    forall t | t in table' ensures AccountedEntry(base, st', out', t, table'[t]) && ValidEntry(st', t, table'[t]) {
      CountSnoc(out, Ref(o), Ref(table'[t]));
      if t in table {
        assert AccountedEntry(base, st, out, t, table[t]) && ValidEntry(st, t, table[t]);
      }
      assert st'.Refs(table'[t]) >= st.Refs(table'[t]);
    }
  }

  method ConvertRow(py: Interpreter, col: Column<string>, j: nat, table: Table,
                    ghost base: Strings, ghost rows: seq<Option<string>>, ghost out: seq<Slot>)
    returns (slot: Slot, table': Table)
    requires Covered(col) && j < |col.data|
    requires Shows(rows, out, table) && Accounted(base, py.strings, out, table)
    modifies py
    ensures Shows(rows + [Rows(col)[j]], out + [slot], table')
    ensures Accounted(base, py.strings, out + [slot], table')
    ensures py.noneRefs == old(py.noneRefs) + if slot == NoneSlot then 1 else 0
  {
    RowOf(col, j);
    if GetBit(col.nulls, j) {
      py.noneRefs := py.noneRefs + 1;
      slot, table' := NoneSlot, table;
      AccountedNull(base, py.strings, out, table);
    } else {
      ghost var st := py.strings;
      var o;
      o, table' := py.MakePystring(col.data[j], table);
      slot := Ref(o);
      AccountedText(base, st, py.strings, out, table, col.data[j], o);
    }
    ShowsStep(rows, out, table, Rows(col)[j], slot, table');
  }

  /** The rows of one chunk, written from `start` on. */
  method ConvertStringChunk(py: Interpreter, col: Column<string>, values: array<Slot>, start: nat, initial: Table,
                            ghost base: Strings, ghost rows: seq<Option<string>>)
    returns (i: nat, table: Table)
    requires Covered(col) && start + |col.data| <= values.Length == |rows|
    requires Rows(col) == rows[start..start + |col.data|]
    requires Shows(rows[..start], values[..start], initial) && Accounted(base, py.strings, values[..start], initial)
    modifies py, values
    ensures i == start + |col.data|
    ensures Shows(rows[..i], values[..i], table) && Accounted(base, py.strings, values[..i], table)
    ensures py.noneRefs - Count(values[..i], NoneSlot) == old(py.noneRefs - Count(values[..start], NoneSlot))
  {
    i, table := start, initial;
    for j := 0 to |col.data|
      invariant i == start + j
      invariant Shows(rows[..i], values[..i], table)
      invariant Accounted(base, py.strings, values[..i], table)
      invariant py.noneRefs - Count(values[..i], NoneSlot) == old(py.noneRefs - Count(values[..start], NoneSlot))
    {
      ghost var done, out := rows[..i], values[..i];
      var slot;
      slot, table := ConvertRow(py, col, j, table, base, done, out);
      ghost var done', out' := done + [Rows(col)[j]], out + [slot];
      assert rows[..i + 1] == done' by { assert rows[start..start + |col.data|][j] == rows[i]; }
      values[i] := slot;
      i := i + 1;
      assert values[..i] == out';
      CountSnoc(out, slot, NoneSlot);
    }
  }

  /** What the finished column is to the rows. */
  ghost predicate SharesEqualStrings(rows: seq<Option<string>>, out: seq<Slot>, text: map<Object, string>) {
    && |out| == |rows|
    && (forall i :: 0 <= i < |rows| ==>
          match rows[i]
          case None => out[i] == NoneSlot
          case Some(s) => out[i].Ref? && out[i].obj in text && text[out[i].obj] == s)
    && (forall i, j :: 0 <= i < |rows| && 0 <= j < |rows| && rows[i].Some? && rows[j].Some? ==>
          (out[i] == out[j] <==> rows[i] == rows[j]))
  }

  lemma ShowsMeansShares(rows: seq<Option<string>>, out: seq<Slot>, table: Table, st: Strings)
    requires Shows(rows, out, table) && ValidTable(st, table)
    ensures SharesEqualStrings(rows, out, st.text)
  {
    forall i | 0 <= i < |rows|
      ensures SlotShows(rows[i], out[i], table)
      ensures rows[i].Some? ==> ValidEntry(st, rows[i].value, table[rows[i].value])
    {
      assert SlotShows(rows[i], out[i], table);
    }
  }

  /** An object that a slot holds is new, unless the interpreter shares one for its string. */
  ghost predicate NewUnlessShared(base: Strings, rows: seq<Option<string>>, out: seq<Slot>)
    requires |rows| == |out|
  {
    forall i :: 0 <= i < |rows| && rows[i].Some? && out[i].Ref? ==>
      if rows[i].value in base.shared then out[i].obj == base.shared[rows[i].value] else out[i].obj !in base.text
  }

  lemma AccountedMeansNew(base: Strings, st: Strings, rows: seq<Option<string>>, out: seq<Slot>, table: Table)
    requires Shows(rows, out, table) && Accounted(base, st, out, table)
    ensures NewUnlessShared(base, rows, out)
  {
    forall i | 0 <= i < |rows| && rows[i].Some? && out[i].Ref?
      ensures if rows[i].value in base.shared then out[i].obj == base.shared[rows[i].value]
              else out[i].obj !in base.text
    {
      assert SlotShows(rows[i], out[i], table);
      var s := rows[i].value;
      assert ValidEntry(st, s, table[s]) && AccountedEntry(base, st, out, s, table[s]);
    }
  }

  /** Before the table goes, each of its objects has more references than the table's own two. */
  lemma TableIsNotLast(base: Strings, st: Strings, out: seq<Slot>, table: Table)
    requires Accounted(base, st, out, table)
    ensures forall s :: s in table ==> st.Refs(table[s]) > 2
  {
    forall s | s in table ensures st.Refs(table[s]) > 2 {
      assert AccountedEntry(base, st, out, s, table[s]) && ValidEntry(st, s, table[s]);
      assert AccountedObject(base, st, out, table, table[s]);
    }
  }

  /** The loop over the chunks, with the intern table still alive at the end. */
  method FillStrings(py: Interpreter, columns: seq<Column<string>>, values: array<Slot>) returns (table: Table)
    requires py.strings.Valid() && AllCovered(columns) && values.Length == |Flatten(columns)|
    modifies py, values
    ensures Shows(Flatten(columns), values[..], table) && Accounted(old(py.strings), py.strings, values[..], table)
    ensures py.noneRefs == old(py.noneRefs) + Count(values[..], NoneSlot)
  {
    ghost var base, rows := py.strings, Flatten(columns);
    FlattenLength(columns);
    table := map[];
    var i := 0;
    for chunk := 0 to |columns|
      invariant i == Start(columns, chunk) <= |rows|
      invariant Shows(rows[..i], values[..i], table)
      invariant Accounted(base, py.strings, values[..i], table)
      invariant py.noneRefs == old(py.noneRefs) + Count(values[..i], NoneSlot)
    {
      ChunkRows(columns, chunk);
      assert Rows(columns[chunk]) == rows[i..i + |columns[chunk].data|];
      i, table := ConvertStringChunk(py, columns[chunk], values, i, table, base, rows);
    }
    assert rows[..i] == rows && values[..i] == values[..];
  }

  /**
    Non-null slots hold the same object if and only if their strings are equal, nulls are None, and
    every object ends with its old reference count plus one for each slot that holds it.
  */
  method ConvertString(py: Interpreter, columns: seq<Column<string>>) returns (values: array<Slot>)
    requires py.strings.Valid() && AllCovered(columns)
    modifies py
    ensures fresh(values) && py.strings.Valid() && py.strings.Extends(old(py.strings))
    ensures SharesEqualStrings(Flatten(columns), values[..], py.strings.text)
    ensures forall o :: py.strings.Refs(o) == old(py.strings).Refs(o) + Count(values[..], Ref(o))
    ensures py.noneRefs == old(py.noneRefs) + Count(values[..], NoneSlot)
    ensures NewUnlessShared(old(py.strings), Flatten(columns), values[..])
  {
    ghost var base, rows := py.strings, Flatten(columns);
    var total := GetColumns(columns);
    values := new Slot[total];
    var table := FillStrings(py, columns, values);
    ghost var out, st := values[..], py.strings;
    ShowsMeansShares(rows, out, table, st);
    AccountedMeansNew(base, st, rows, out, table);
    TableIsNotLast(base, st, out, table);
    py.ReleaseTable(table);
    forall o ensures py.strings.Refs(o) == base.Refs(o) + Count(out, Ref(o)) {
      assert AccountedObject(base, st, out, table, o);
    }
  }
}
