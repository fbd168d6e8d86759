/** The reshaping of forecast rows for the chart in web/src/components/ForecastChart.jsx.

    The input is a table whose first row holds the field names. `prepareData` turns every later
    row into three chart rows (the farm's value, the HODL value and the "only A" value), grouped by
    the row's name in the order the names first appear; `findUniqueFields` lists the distinct
    values of one column in first-appearance order. The JavaScript objects and the `Set` the
    source fills are a map with its keys' insertion order kept beside it, and a sequence without
    repeats. */
module ForecastChart {
  import opened Outcomes

  /** A table cell: a string, a number, or `undefined` (what indexing past a row or with an
      unknown field yields). */
  datatype Cell = Text(s: string) | Number(n: real) | Undefined

  type Row = seq<Cell>

  /** A cell used as a property key or joined to a string: JavaScript's `String(value)`. The
      rendering of a number is the engine's, so it comes in as `numberText`. */
  function KeyText(c: Cell, numberText: real -> string): string {
    match c
    case Text(s) => s
    case Number(n) => numberText(n)
    case Undefined => "undefined"
  }

  // Field names.

  /** The object `fieldsMap` after `header.forEach((f, i) => fieldsMap[f] = i)`. */
  function FieldsOf(header: Row, numberText: real -> string): map<string, nat> {
    if header == [] then map[]
    else FieldsOf(header[..|header| - 1], numberText)[KeyText(header[|header| - 1], numberText) := |header| - 1]
  }

  /** A field name maps to the last column that carries it; names no column carries are absent. */
  lemma {:induction false} FieldsOfLastIndex(header: Row, numberText: real -> string, key: string)
    ensures key in FieldsOf(header, numberText) <==> exists i :: 0 <= i < |header| && KeyText(header[i], numberText) == key
    ensures key in FieldsOf(header, numberText) ==>
              var i := FieldsOf(header, numberText)[key];
              i < |header| && KeyText(header[i], numberText) == key &&
              forall j :: i < j < |header| ==> KeyText(header[j], numberText) != key
  {
    if header != [] {
      var init := header[..|header| - 1];
      FieldsOfLastIndex(init, numberText, key);
      if KeyText(header[|header| - 1], numberText) != key {
        if exists i :: 0 <= i < |header| && KeyText(header[i], numberText) == key {
          var i :| 0 <= i < |header| && KeyText(header[i], numberText) == key;
          assert init[i] == header[i];
        }
        if key in FieldsOf(init, numberText) {
          var i := FieldsOf(init, numberText)[key];
          assert init[i] == header[i];
        }
      }
    }
  }

  /** The loop of `data[0].forEach(...)`. */
  method LoadFieldsMap(header: Row, numberText: real -> string) returns (fieldsMap: map<string, nat>)
    ensures fieldsMap == FieldsOf(header, numberText)
  {
    fieldsMap := map[];
    for i := 0 to |header|
      invariant fieldsMap == FieldsOf(header[..i], numberText)
    {
      assert header[..i + 1][..i] == header[..i];
      fieldsMap := fieldsMap[KeyText(header[i], numberText) := i];
    }
    assert header[..|header|] == header;
  }

  /** `v[fieldsMap[name]]`: the cell of the named column, `undefined` for an unknown name or a
      short row. */
  function Lookup(row: Row, fields: map<string, nat>, name: string): Cell {
    if name in fields && fields[name] < |row| then row[fields[name]] else Undefined
  }

  // Distinct values in first-appearance order.

  /** What a JavaScript `Set` (or the keys of a fresh object) holds after adding the elements of
      `s` one by one: each element once, where it first appeared. */
  function Distinct<T(==,!new)>(s: seq<T>): (d: seq<T>)
    ensures forall x :: x in d <==> x in s
  {
    if s == [] then []
    else
      var init := s[..|s| - 1];
      assert s == init + [s[|s| - 1]];
      var d := Distinct(init);
      if s[|s| - 1] in d then d else d + [s[|s| - 1]]
  }

  /** Index of the first occurrence of `x` in `s`. */
  function FirstIndex<T(==)>(s: seq<T>, x: T): (i: nat)
    requires x in s
    ensures i < |s| && s[i] == x && forall j :: 0 <= j < i ==> s[j] != x
  {
    if s[0] == x then 0 else 1 + FirstIndex(s[1..], x)
  }

  predicate NoRepeats<T(==)>(s: seq<T>) {
    forall i, j :: 0 <= i < j < |s| ==> s[i] != s[j]
  }

  /** The distinct elements, none twice... */
  lemma {:induction false} DistinctNoRepeats<T(!new)>(s: seq<T>)
    ensures NoRepeats(Distinct(s))
  {
    if s != [] {
      var init := s[..|s| - 1];
      DistinctNoRepeats(init);
    }
  }

  /** ...ordered by their first appearance. */
  lemma {:induction false} DistinctOrder<T(!new)>(s: seq<T>)
    ensures forall i, j :: 0 <= i < j < |Distinct(s)| ==>
              FirstIndex(s, Distinct(s)[i]) < FirstIndex(s, Distinct(s)[j])
  {
    if s != [] {
      var init := s[..|s| - 1];
      var x := s[|s| - 1];
      DistinctOrder(init);
      var d := Distinct(init);
      assert s == init + [x];
      forall y | y in init ensures FirstIndex(s, y) == FirstIndex(init, y) {
        FirstIndexPrefix(init, [x], y);
      }
      if x !in d {
        var e := d + [x];
        assert FirstIndex(s, x) == |init| by {
          forall k | 0 <= k < |init| ensures s[k] != x {
            assert s[k] == init[k];
          }
          FirstIndexUnique(s, x, |init|);
        }
        forall i, j | 0 <= i < j < |e| ensures FirstIndex(s, e[i]) < FirstIndex(s, e[j]) {
          assert e[i] == d[i] && d[i] in d;
          if j < |d| {
            assert e[j] == d[j];
          }
        }
      }
    }
  }

  /** The distinct elements are those of `s`, none twice, ordered by their first appearance. */
  lemma DistinctMeaning<T(!new)>(s: seq<T>)
    ensures forall x :: x in Distinct(s) <==> x in s
    ensures NoRepeats(Distinct(s))
    ensures forall i, j :: 0 <= i < j < |Distinct(s)| ==>
              FirstIndex(s, Distinct(s)[i]) < FirstIndex(s, Distinct(s)[j])
  {
    DistinctNoRepeats(s);
    DistinctOrder(s);
  }

  lemma FirstIndexPrefix<T>(a: seq<T>, b: seq<T>, x: T)
    requires x in a
    ensures FirstIndex(a + b, x) == FirstIndex(a, x)
  {
    var i := FirstIndex(a, x);
    assert (a + b)[i] == x;
    forall k | 0 <= k < i ensures (a + b)[k] != x {
      assert (a + b)[k] == a[k];
    }
    FirstIndexUnique(a + b, x, i);
  }

  /** The first occurrence is the only index with that property. */
  lemma FirstIndexUnique<T>(s: seq<T>, x: T, i: nat)
    requires i < |s| && s[i] == x && forall k :: 0 <= k < i ==> s[k] != x
    ensures FirstIndex(s, x) == i
  {
  }

  // prepareData.

  /** The header of the prepared table. */
  const OutHeader: Row := [Text("Date"), Text("Name"), Text("Value"), Text("APR")]

  /** The name of a data row, as the key of the `names` object. */
  function NameOf(row: Row, fields: map<string, nat>, numberText: real -> string): string {
    KeyText(Lookup(row, fields, "Name"), numberText)
  }

  /** The three chart rows of one data row. */
  function Expand(row: Row, fields: map<string, nat>, numberText: real -> string): seq<Row> {
    var name := NameOf(row, fields, numberText);
    var date := Lookup(row, fields, "Date");
    [[date, Text(name + " Farm"), Lookup(row, fields, "Value"), Lookup(row, fields, "APR")],
     [date, Text(name + " HODL"), Lookup(row, fields, "HODL"), Number(0.0)],
     [date, Text(name + " Only A"), Lookup(row, fields, "Only A"), Number(0.0)]]
  }

  /** The names of the rows, in order. */
  function Names(rows: seq<Row>, fields: map<string, nat>, numberText: real -> string): (ns: seq<string>)
    ensures |ns| == |rows|
    ensures forall k :: 0 <= k < |rows| ==> ns[k] == NameOf(rows[k], fields, numberText)
  {
    if rows == [] then [] else Names(rows[..|rows| - 1], fields, numberText) + [NameOf(rows[|rows| - 1], fields, numberText)]
  }

  /** The array `names[name]`: the expansions of the rows with that name, in their order. */
  function Group(rows: seq<Row>, fields: map<string, nat>, numberText: real -> string, name: string): seq<Row> {
    if rows == [] then []
    else
      var last := rows[|rows| - 1];
      Group(rows[..|rows| - 1], fields, numberText, name) +
        (if NameOf(last, fields, numberText) == name then Expand(last, fields, numberText) else [])
  }

  /** The groups of `keys`, one after the other. */
  function Grouped(rows: seq<Row>, fields: map<string, nat>, numberText: real -> string, keys: seq<string>): seq<Row> {
    if keys == [] then []
    else Grouped(rows, fields, numberText, keys[..|keys| - 1]) + Group(rows, fields, numberText, keys[|keys| - 1])
  }

  /** The prepared table of the data rows `rows` read with `fields`. */
  function Prepared(rows: seq<Row>, fields: map<string, nat>, numberText: real -> string): seq<Row> {
    [OutHeader] + Grouped(rows, fields, numberText, Distinct(Names(rows, fields, numberText)))
  }

  /** `prepareData`: the distinct names and the prepared table. The source reads `data[0]`, so it
      needs a header row. */
  method PrepareData(data: seq<Row>, numberText: real -> string) returns (uniqueNames: seq<string>, out: seq<Row>)
    requires |data| > 0
    ensures var fields := FieldsOf(data[0], numberText);
            uniqueNames == Distinct(Names(data[1..], fields, numberText)) &&
            out == Prepared(data[1..], fields, numberText)
  {
    var fieldsMap := LoadFieldsMap(data[0], numberText);
    var names, keys := GroupRows(data, fieldsMap, numberText);
    uniqueNames := keys;
    out := JoinGroups(names, keys, data[1..], fieldsMap, numberText);
  }

  /** The `data.forEach` of `prepareData`: the object `names`, with its keys' insertion order
      (what `Object.keys` reports). The header row is skipped. */
  method GroupRows(data: seq<Row>, fieldsMap: map<string, nat>, numberText: real -> string)
    returns (names: map<string, seq<Row>>, keys: seq<string>)
    requires |data| > 0
    ensures keys == Distinct(Names(data[1..], fieldsMap, numberText))
    ensures forall k :: k in names <==> k in keys
    ensures forall k :: k in names ==> names[k] == Group(data[1..], fieldsMap, numberText, k)
  {
    names, keys := map[], [];
    ghost var rows: seq<Row> := [];  // the data rows seen so far
    for i := 1 to |data|
      invariant rows == data[1..i]
      invariant GroupsOf(names, keys, rows, fieldsMap, numberText)
    {
      var v := data[i];
      var names', keys' := AddRow(names, keys, v, fieldsMap, numberText);
      AddRowKeeps(names, keys, rows, v, names', keys', fieldsMap, numberText);
      names, keys := names', keys';
      SliceExtend(data, 1, i);
      rows := rows + [v];
    }
    SliceToEnd(data, 1);
  }

  /** The callback of the `forEach` for one data row: a name not seen before gets an empty array
      (and so takes the next place in the key order), and the row's expansion is pushed onto its
      name's array. */
  method AddRow(names: map<string, seq<Row>>, keys: seq<string>, v: Row,
                fieldsMap: map<string, nat>, numberText: real -> string)
    returns (names': map<string, seq<Row>>, keys': seq<string>)
    ensures var name := NameOf(v, fieldsMap, numberText);
            keys' == (if name in names then keys else keys + [name]) &&
            (forall k :: k in names' <==> k in names || k == name) &&
            (forall k :: k in names' && k != name ==> names'[k] == names[k]) &&
            name in names' &&
            names'[name] == (if name in names then names[name] else []) + Expand(v, fieldsMap, numberText)
  {
    names', keys' := names, keys;
    var name := NameOf(v, fieldsMap, numberText);
    if name !in names' {
      names' := names'[name := []];
      keys' := keys' + [name];
    }
    names' := names'[name := names'[name] + Expand(v, fieldsMap, numberText)];
  }

  /** The object `names` and its key order after the rows `rows`. */
  ghost predicate GroupsOf(names: map<string, seq<Row>>, keys: seq<string>, rows: seq<Row>,
                           fields: map<string, nat>, numberText: real -> string) {
    keys == Distinct(Names(rows, fields, numberText)) &&
    (forall k :: k in names <==> k in keys) &&
    (forall k :: k in names ==> names[k] == Group(rows, fields, numberText, k))
  }

  /** One more row: a new name is appended to the keys with an empty group first, and the row's
      expansion joins its name's group; the other groups stay as they are. */
  lemma AddRowKeeps(names: map<string, seq<Row>>, keys: seq<string>, rows: seq<Row>, v: Row,
                    names': map<string, seq<Row>>, keys': seq<string>,
                    fields: map<string, nat>, numberText: real -> string)
    requires GroupsOf(names, keys, rows, fields, numberText)
    requires var name := NameOf(v, fields, numberText);
             keys' == (if name in names then keys else keys + [name]) &&
             (forall k :: k in names' <==> k in names || k == name) &&
             (forall k :: k in names' && k != name ==> names'[k] == names[k]) &&
             name in names' &&
             names'[name] == (if name in names then names[name] else []) + Expand(v, fields, numberText)
    ensures GroupsOf(names', keys', rows + [v], fields, numberText)
  {
    var name := NameOf(v, fields, numberText);
    NamesStep(rows, v, fields, numberText);
    assert keys' == Distinct(Names(rows + [v], fields, numberText));
    forall k ensures k in names' <==> k in keys' {
    }
    forall k | k in names' ensures names'[k] == Group(rows + [v], fields, numberText, k) {
      GroupStepAt(rows, v, fields, numberText, k);
      if k == name && name !in names {
        GroupAbsent(rows, fields, numberText, name);
      }
    }
  }

  /** The `reduce` of `prepareData`: the header, then the groups in key order. */
  method JoinGroups(names: map<string, seq<Row>>, keys: seq<string>, ghost rows: seq<Row>,
                    fieldsMap: map<string, nat>, numberText: real -> string)
    returns (out: seq<Row>)
    requires forall k :: k in keys ==> k in names && names[k] == Group(rows, fieldsMap, numberText, k)
    ensures out == [OutHeader] + Grouped(rows, fieldsMap, numberText, keys)
  {
    out := [OutHeader];
    for j := 0 to |keys|
      invariant out == [OutHeader] + Grouped(rows, fieldsMap, numberText, keys[..j])
    {
      assert keys[..j + 1][..j] == keys[..j];
      AppendAssoc([OutHeader], Grouped(rows, fieldsMap, numberText, keys[..j]), names[keys[j]]);
      out := out + names[keys[j]];
    }
    assert keys[..|keys|] == keys;
  }

  /** The distinct names after one more row. */
  lemma NamesStep(rows: seq<Row>, r: Row, fields: map<string, nat>, numberText: real -> string)
    ensures var d := Distinct(Names(rows, fields, numberText));
            Distinct(Names(rows + [r], fields, numberText)) ==
              if NameOf(r, fields, numberText) in d then d else d + [NameOf(r, fields, numberText)]
  {
    var ns := Names(rows, fields, numberText);
    assert (rows + [r])[..|rows|] == rows;
    assert Names(rows + [r], fields, numberText) == ns + [NameOf(r, fields, numberText)];
    assert (ns + [NameOf(r, fields, numberText)])[..|ns|] == ns;
    DistinctMeaning(ns);
  }

  /** A name no row carries has an empty group. */
  lemma {:induction false} GroupAbsent(rows: seq<Row>, fields: map<string, nat>, numberText: real -> string, name: string)
    requires name !in Distinct(Names(rows, fields, numberText))
    ensures Group(rows, fields, numberText, name) == []
  {
    if rows != [] {
      var init := rows[..|rows| - 1];
      assert Names(init, fields, numberText) == Names(rows, fields, numberText)[..|rows| - 1];
      assert name !in Names(rows, fields, numberText);
      GroupAbsent(init, fields, numberText, name);
    }
  }

  /** The groups after one more row: only the group of its name grows, by its expansion. */
  lemma GroupStepAt(rows: seq<Row>, r: Row, fields: map<string, nat>, numberText: real -> string, k: string)
    ensures Group(rows + [r], fields, numberText, k) ==
              Group(rows, fields, numberText, k) + (if NameOf(r, fields, numberText) == k then Expand(r, fields, numberText) else [])
  {
    assert (rows + [r])[..|rows|] == rows;
  }

  lemma SliceExtend<T>(s: seq<T>, lo: nat, hi: nat)
    requires lo <= hi < |s|
    ensures s[lo..hi + 1] == s[lo..hi] + [s[hi]]
  {
  }

  lemma SliceToEnd<T>(s: seq<T>, lo: nat)
    requires lo <= |s|
    ensures s[lo..|s|] == s[lo..]
  {
  }

  lemma AppendAssoc<T>(x: seq<T>, y: seq<T>, z: seq<T>)
    ensures x + (y + z) == (x + y) + z
  {
  }

  // Properties of the prepared table.

  /** How many rows carry the name. */
  function CountName(rows: seq<Row>, fields: map<string, nat>, numberText: real -> string, name: string): nat {
    if rows == [] then 0
    else CountName(rows[..|rows| - 1], fields, numberText, name) + (if NameOf(rows[|rows| - 1], fields, numberText) == name then 1 else 0)
  }

  /** A group holds three chart rows per data row of its name. */
  lemma {:induction false} GroupSize(rows: seq<Row>, fields: map<string, nat>, numberText: real -> string, name: string)
    ensures |Group(rows, fields, numberText, name)| == 3 * CountName(rows, fields, numberText, name)
  {
    if rows != [] {
      GroupSize(rows[..|rows| - 1], fields, numberText, name);
    }
  }

  /** The rows counted over a list of names. */
  function CountNames(rows: seq<Row>, fields: map<string, nat>, numberText: real -> string, keys: seq<string>): nat {
    if keys == [] then 0
    else CountNames(rows, fields, numberText, keys[..|keys| - 1]) + CountName(rows, fields, numberText, keys[|keys| - 1])
  }

  lemma {:induction false} GroupedSize(rows: seq<Row>, fields: map<string, nat>, numberText: real -> string, keys: seq<string>)
    ensures |Grouped(rows, fields, numberText, keys)| == 3 * CountNames(rows, fields, numberText, keys)
  {
    if keys != [] {
      GroupedSize(rows, fields, numberText, keys[..|keys| - 1]);
      GroupSize(rows, fields, numberText, keys[|keys| - 1]);
    }
  }

  /** One more row adds one to the count of the names list that holds its name once, and nothing
      to one that does not hold it. */
  lemma {:induction false} CountNamesAppend(rows: seq<Row>, r: Row, fields: map<string, nat>, numberText: real -> string, keys: seq<string>)
    requires NoRepeats(keys)
    ensures CountNames(rows + [r], fields, numberText, keys) ==
              CountNames(rows, fields, numberText, keys) + (if NameOf(r, fields, numberText) in keys then 1 else 0)
  {
    assert (rows + [r])[..|rows|] == rows;
    if keys != [] {
      var init := keys[..|keys| - 1];
      assert NoRepeats(init);
      CountNamesAppend(rows, r, fields, numberText, init);
      assert keys == init + [keys[|keys| - 1]];
      assert keys[|keys| - 1] !in init;
    }
  }

  /** Every data row is counted once under the distinct names. */
  lemma {:induction false} CountDistinctNames(rows: seq<Row>, fields: map<string, nat>, numberText: real -> string)
    ensures CountNames(rows, fields, numberText, Distinct(Names(rows, fields, numberText))) == |rows|
  {
    if rows != [] {
      var init := rows[..|rows| - 1];
      var r := rows[|rows| - 1];
      var name := NameOf(r, fields, numberText);
      CountDistinctNames(init, fields, numberText);
      var d := Distinct(Names(init, fields, numberText));
      assert rows == init + [r];
      NamesStep(init, r, fields, numberText);
      DistinctNoRepeats(Names(init, fields, numberText));
      CountNamesAppend(init, r, fields, numberText, d);
      if name !in d {
        CountNamesSnoc(rows, fields, numberText, d, name);
        CountNameLast(init, r, fields, numberText);
      }
    }
  }

  lemma CountNamesSnoc(rows: seq<Row>, fields: map<string, nat>, numberText: real -> string, keys: seq<string>, name: string)
    ensures CountNames(rows, fields, numberText, keys + [name]) ==
              CountNames(rows, fields, numberText, keys) + CountName(rows, fields, numberText, name)
  {
    assert (keys + [name])[..|keys|] == keys;
  }

  /** A row whose name none of the earlier rows carries is the only one counted under it. */
  lemma CountNameLast(rows: seq<Row>, r: Row, fields: map<string, nat>, numberText: real -> string)
    requires NameOf(r, fields, numberText) !in Distinct(Names(rows, fields, numberText))
    ensures CountName(rows + [r], fields, numberText, NameOf(r, fields, numberText)) == 1
  {
    assert (rows + [r])[..|rows|] == rows;
    CountNameAbsent(rows, fields, numberText, NameOf(r, fields, numberText));
  }

  lemma {:induction false} CountNameAbsent(rows: seq<Row>, fields: map<string, nat>, numberText: real -> string, name: string)
    requires name !in Names(rows, fields, numberText)
    ensures CountName(rows, fields, numberText, name) == 0
  {
    if rows != [] {
      var init := rows[..|rows| - 1];
      assert Names(init, fields, numberText) == Names(rows, fields, numberText)[..|rows| - 1];
      CountNameAbsent(init, fields, numberText, name);
    }
  }

  /** The prepared table is the header followed by three rows per data row. */
  lemma PreparedSize(rows: seq<Row>, fields: map<string, nat>, numberText: real -> string)
    ensures |Prepared(rows, fields, numberText)| == 1 + 3 * |rows|
    ensures Prepared(rows, fields, numberText)[0] == OutHeader
  {
    GroupedSize(rows, fields, numberText, Distinct(Names(rows, fields, numberText)));
    CountDistinctNames(rows, fields, numberText);
  }

  /** A data row contributes its farm, HODL and only-A rows to its name's group, in that order. */
  lemma ExpandShape(row: Row, fields: map<string, nat>, numberText: real -> string)
    ensures var e := Expand(row, fields, numberText);
            var name := NameOf(row, fields, numberText);
            |e| == 3 &&
            e[0] == [Lookup(row, fields, "Date"), Text(name + " Farm"), Lookup(row, fields, "Value"), Lookup(row, fields, "APR")] &&
            e[1] == [Lookup(row, fields, "Date"), Text(name + " HODL"), Lookup(row, fields, "HODL"), Number(0.0)] &&
            e[2] == [Lookup(row, fields, "Date"), Text(name + " Only A"), Lookup(row, fields, "Only A"), Number(0.0)]
  {
  }

  /** The group of a name keeps the order of its rows: the group of the rows up to some row ends
      with that row's expansion. */
  lemma GroupEndsWithRow(rows: seq<Row>, fields: map<string, nat>, numberText: real -> string, k: nat)
    requires k < |rows|
    ensures var g := Group(rows[..k + 1], fields, numberText, NameOf(rows[k], fields, numberText));
            |g| >= 3 && g[|g| - 3..] == Expand(rows[k], fields, numberText)
  {
    var p := rows[..k + 1];
    assert p[..|p| - 1] == rows[..k] && p[|p| - 1] == rows[k];
  }

  /** The groups of a longer list of rows extend those of a shorter one. */
  lemma {:induction false} GroupGrows(rows: seq<Row>, fields: map<string, nat>, numberText: real -> string, name: string, k: nat)
    requires k <= |rows|
    decreases |rows| - k
    ensures var g := Group(rows, fields, numberText, name);
            var h := Group(rows[..k], fields, numberText, name);
            |h| <= |g| && g[..|h|] == h
  {
    if k < |rows| {
      GroupGrows(rows, fields, numberText, name, k + 1);
      var p := rows[..k + 1];
      assert p[..|p| - 1] == rows[..k];
    } else {
      assert rows[..k] == rows;
    }
  }

  /** Within a group, an earlier row's chart rows come before a later row's. */
  lemma RowsInOrder(rows: seq<Row>, fields: map<string, nat>, numberText: real -> string, k: nat)
    requires k < |rows|
    ensures var name := NameOf(rows[k], fields, numberText);
            var g := Group(rows, fields, numberText, name);
            var n := |Group(rows[..k + 1], fields, numberText, name)|;
            3 <= n <= |g| && g[n - 3..n] == Expand(rows[k], fields, numberText)
  {
    var name := NameOf(rows[k], fields, numberText);
    GroupEndsWithRow(rows, fields, numberText, k);
    GroupGrows(rows, fields, numberText, name, k + 1);
    var g := Group(rows, fields, numberText, name);
    var h := Group(rows[..k + 1], fields, numberText, name);
    assert g[|h| - 3..|h|] == g[..|h|][|h| - 3..];
  }

  // findUniqueFields.

  /** The cells of the named column, one per row. */
  function Column(rows: seq<Row>, fields: map<string, nat>, name: string): (c: seq<Cell>)
    ensures |c| == |rows|
    ensures forall k :: 0 <= k < |rows| ==> c[k] == Lookup(rows[k], fields, name)
  {
    if rows == [] then [] else Column(rows[..|rows| - 1], fields, name) + [Lookup(rows[|rows| - 1], fields, name)]
  }

  /** `findUniqueFields`: the distinct cells of the column `fieldName` below the header, and the
      header's field map. An unknown field name (which the source only reports on the console)
      makes every cell `undefined`; with no rows at all both results are empty. */
  method FindUniqueFields(fieldName: string, data: seq<Row>, numberText: real -> string)
    returns (unique: seq<Cell>, fieldsMap: map<string, nat>)
    ensures data == [] ==> unique == [] && fieldsMap == map[]
    ensures data != [] ==> fieldsMap == FieldsOf(data[0], numberText) &&
                           unique == Distinct(Column(data[1..], fieldsMap, fieldName))
  {
    fieldsMap := map[];
    unique := [];
    for i := 0 to |data|
      invariant i == 0 ==> fieldsMap == map[] && unique == []
      invariant i > 0 ==> fieldsMap == FieldsOf(data[0], numberText) &&
                          unique == Distinct(Column(data[1..i], fieldsMap, fieldName))
    {
      if i == 0 {
        fieldsMap := LoadFieldsMap(data[0], numberText);
        assert data[1..1] == [];
      } else {
        var cell := Lookup(data[i], fieldsMap, fieldName);
        SliceExtend(data, 1, i);
        ColumnStep(data[1..i], data[i], fieldsMap, fieldName);
        if cell !in unique {
          unique := unique + [cell];
        }
      }
    }
    if data != [] {
      SliceToEnd(data, 1);
    }
  }

  /** The distinct cells of a column after one more row. */
  lemma ColumnStep(rows: seq<Row>, r: Row, fields: map<string, nat>, name: string)
    ensures var d := Distinct(Column(rows, fields, name));
            var c := Lookup(r, fields, name);
            Distinct(Column(rows + [r], fields, name)) == if c in d then d else d + [c]
  {
    var col := Column(rows, fields, name);
    assert (rows + [r])[..|rows|] == rows;
    assert Column(rows + [r], fields, name) == col + [Lookup(r, fields, name)];
    assert (col + [Lookup(r, fields, name)])[..|col|] == col;
  }

  /** The values found are those of the column, each once, in first-appearance order. */
  lemma UniqueFieldsMeaning(rows: seq<Row>, fields: map<string, nat>, name: string)
    ensures var u := Distinct(Column(rows, fields, name));
            (forall x :: x in u <==> exists k :: 0 <= k < |rows| && Lookup(rows[k], fields, name) == x) &&
            NoRepeats(u)
  {
    var col := Column(rows, fields, name);
    DistinctMeaning(col);
    forall x ensures x in col <==> exists k :: 0 <= k < |rows| && Lookup(rows[k], fields, name) == x {
      if x in col {
        var k :| 0 <= k < |col| && col[k] == x;
      }
    }
  }

  // Two farms whose rows interleave.

  const SampleHeader: Row := [Text("Date"), Text("Name"), Text("Value"), Text("HODL"), Text("Only A"), Text("APR")]
  const SampleFields: map<string, nat> := map["Date" := 0, "Name" := 1, "Value" := 2, "HODL" := 3, "Only A" := 4, "APR" := 5]
  const RowX1: Row := [Text("2022-01-01"), Text("X"), Number(1.0), Number(2.0), Number(3.0), Number(4.0)]
  const RowY1: Row := [Text("2022-01-01"), Text("Y"), Number(5.0), Number(6.0), Number(7.0), Number(8.0)]
  const RowX2: Row := [Text("2022-01-02"), Text("X"), Number(9.0), Number(10.0), Number(11.0), Number(12.0)]

  lemma SampleFieldsMap(numberText: real -> string)
    ensures FieldsOf(SampleHeader, numberText) == SampleFields
  {
    var h := SampleHeader;
    assert h[..1][..0] == [];
    assert FieldsOf(h[..1], numberText) == map["Date" := 0];
    assert h[..2][..1] == h[..1];
    assert FieldsOf(h[..2], numberText) == map["Date" := 0, "Name" := 1];
    assert h[..3][..2] == h[..2];
    assert FieldsOf(h[..3], numberText) == map["Date" := 0, "Name" := 1, "Value" := 2];
    assert h[..4][..3] == h[..3];
    assert FieldsOf(h[..4], numberText) == map["Date" := 0, "Name" := 1, "Value" := 2, "HODL" := 3];
    assert h[..5][..4] == h[..4];
    assert FieldsOf(h[..5], numberText) == map["Date" := 0, "Name" := 1, "Value" := 2, "HODL" := 3, "Only A" := 4];
    assert h[..5] == h[..|h| - 1];
  }

  lemma SampleNames(numberText: real -> string)
    ensures Names([RowX1, RowY1, RowX2], SampleFields, numberText) == ["X", "Y", "X"]
  {
    assert NameOf(RowX1, SampleFields, numberText) == "X";
    assert NameOf(RowY1, SampleFields, numberText) == "Y";
    assert NameOf(RowX2, SampleFields, numberText) == "X";
    assert [RowX1, RowY1, RowX2][..2] == [RowX1, RowY1] && [RowX1, RowY1][..1] == [RowX1];
  }

  lemma SampleDistinct()
    ensures Distinct(["X", "Y", "X"]) == ["X", "Y"]
  {
    assert ["X", "Y", "X"][..2] == ["X", "Y"] && ["X", "Y"][..1] == ["X"] && ["X"][..0] == [];
  }

  lemma SampleGroups(numberText: real -> string)
    ensures Group([RowX1, RowY1, RowX2], SampleFields, numberText, "X") ==
              Expand(RowX1, SampleFields, numberText) + Expand(RowX2, SampleFields, numberText)
    ensures Group([RowX1, RowY1, RowX2], SampleFields, numberText, "Y") == Expand(RowY1, SampleFields, numberText)
  {
    var rows := [RowX1, RowY1, RowX2];
    assert NameOf(RowX1, SampleFields, numberText) == "X";
    assert NameOf(RowY1, SampleFields, numberText) == "Y";
    assert NameOf(RowX2, SampleFields, numberText) == "X";
    assert [RowX1][..0] == [];
    assert Group([RowX1], SampleFields, numberText, "X") == Expand(RowX1, SampleFields, numberText);
    assert Group([RowX1], SampleFields, numberText, "Y") == [];
    assert [RowX1, RowY1][..1] == [RowX1];
    assert Group([RowX1, RowY1], SampleFields, numberText, "X") == Expand(RowX1, SampleFields, numberText);
    assert Group([RowX1, RowY1], SampleFields, numberText, "Y") == Expand(RowY1, SampleFields, numberText);
    assert rows[..2] == [RowX1, RowY1] && rows[2] == RowX2;
  }

  lemma SampleGrouped(numberText: real -> string)
    ensures Grouped([RowX1, RowY1, RowX2], SampleFields, numberText, ["X", "Y"]) ==
              Group([RowX1, RowY1, RowX2], SampleFields, numberText, "X") +
              Group([RowX1, RowY1, RowX2], SampleFields, numberText, "Y")
  {
    var rows := [RowX1, RowY1, RowX2];
    assert ["X", "Y"][..1] == ["X"] && ["X"][..0] == [];
    assert Grouped(rows, SampleFields, numberText, ["X"]) == [] + Group(rows, SampleFields, numberText, "X");
    assert [] + Group(rows, SampleFields, numberText, "X") == Group(rows, SampleFields, numberText, "X");
  }

  /** The rows of each farm end up together, the first farm's first, each in its original order. */
  lemma TwoFarmsGrouped(numberText: real -> string)
    ensures var fields := FieldsOf(SampleHeader, numberText);
            var rows := [RowX1, RowY1, RowX2];
            Distinct(Names(rows, fields, numberText)) == ["X", "Y"] &&
            Prepared(rows, fields, numberText) ==
              [OutHeader] + Expand(RowX1, fields, numberText) + Expand(RowX2, fields, numberText) + Expand(RowY1, fields, numberText)
  {
    SampleFieldsMap(numberText);
    SampleNames(numberText);
    SampleDistinct();
    SampleGroups(numberText);
    SampleGrouped(numberText);
    var x1 := Expand(RowX1, SampleFields, numberText);
    var x2 := Expand(RowX2, SampleFields, numberText);
    var y := Expand(RowY1, SampleFields, numberText);
    AppendAssoc([OutHeader], x1 + x2, y);
    AppendAssoc([OutHeader], x1, x2);
  }
}
