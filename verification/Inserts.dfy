/** The rows of an INSERT: printed under a list of columns, zipped with it again when parsed. */
module Inserts {
  import opened Expressions
  import Quotes

  /** A literal value; negative numbers, which the grammar may read as an operation, are left out. */
  datatype Literal = Number(n: nat) | Text(s: string)

  type Row = map<string, Literal>

  /** A value as written, a string with its quotes; a column as written, with quotes or without. */
  datatype Written = Digits(n: nat) | Literally(text: string)

  datatype Name = Plain(id: string) | Enclosed(text: string)

  /** `INSERT INTO t (columns) VALUES (row), (row) ...` */
  datatype Statement = Statement(columns: seq<Name>, rows: seq<seq<Written>>)

  /** What the parser builds: rows of values, or a query it could not take values from. */
  datatype Insert = Values(rows: seq<Row>) | Query(columns: seq<string>, query: seq<seq<Literal>>)

  /** The formatter's choice of quotes and of names to quote, and the names of `\N{...}` escapes. */
  datatype Dialect = Dialect(ansi: bool, shouldQuote: string -> bool, named: string -> Option<char>)

  function Columns(rows: seq<Row>): set<string> {
    set i, c | 0 <= i < |rows| && c in rows[i] :: c
  }

  /** The set of columns listed in some order, as `sorted` does. */
  ghost predicate Lists(columns: seq<string>, s: set<string>) {
    (forall c :: c in columns <==> c in s) && Distinct(columns)
  }

  predicate Distinct(columns: seq<string>) {
    forall i, j :: 0 <= i < j < |columns| ==> columns[i] != columns[j]
  }

  /* ---------- printing ---------- */

  function WriteValue(v: Literal): Written {
    match v
    case Number(n) => Digits(n)
    case Text(s) => Literally(Quotes.PrintLiteral(s))
  }

  function WriteColumn(d: Dialect, c: string): Name {
    if d.shouldQuote(c) then Enclosed(Quotes.PrintIdentifier(c, if d.ansi then '"' else '`')) else Plain(c)
  }

  /** The row's values in the order of the columns, or None where it lacks one. */
  function Pick(row: Row, columns: seq<string>): Option<seq<Literal>> {
    if columns == [] then Some([])
    else
      match Pick(row, columns[..|columns| - 1])
      case Some(vs) =>
        var c := columns[|columns| - 1];
        if c in row then Some(vs + [row[c]]) else None
      case None => None
  }

  function PickAll(rows: seq<Row>, columns: seq<string>): Option<seq<seq<Literal>>> {
    if rows == [] then Some([])
    else
      match (PickAll(rows[..|rows| - 1], columns), Pick(rows[|rows| - 1], columns))
      case (Some(before), Some(vs)) => Some(before + [vs])
      case _ => None
  }

  function WriteRow(vs: seq<Literal>): seq<Written> {
    seq(|vs|, i requires 0 <= i < |vs| => WriteValue(vs[i]))
  }

  function WriteRows(rows: seq<seq<Literal>>): seq<seq<Written>> {
    seq(|rows|, i requires 0 <= i < |rows| => WriteRow(rows[i]))
  }

  function WriteColumns(d: Dialect, columns: seq<string>): seq<Name> {
    seq(|columns|, i requires 0 <= i < |columns| => WriteColumn(d, columns[i]))
  }

  function PrintInsert(d: Dialect, rows: seq<Row>, columns: seq<string>): Option<Statement> {
    match PickAll(rows, columns)
    case Some(all) => Some(Statement(WriteColumns(d, columns), WriteRows(all)))
    case None => None
  }

  /* ---------- parsing ---------- */

  /** The value of a token, or None where un-escaping it raises an error. */
  function ReadValue(d: Dialect, w: Written): Option<Literal> {
    match w
    case Digits(n) => Some(Number(n))
    case Literally(text) =>
      if |text| < 2 then None
      else
        match Quotes.SingleLiteral(text, d.named)
        case Some(s) => Some(Text(s))
        case None => None
  }

  function ReadColumn(d: Dialect, n: Name): Option<string> {
    match n
    case Plain(id) => Some(id)
    case Enclosed(text) =>
      if |text| < 2 then None
      else if d.ansi then Quotes.DoubleColumn(text, d.named)
      else Quotes.BacktickColumn(text, d.named)
  }

  /** All of the values, if none is missing. */
  function AllOf<T>(os: seq<Option<T>>): (r: Option<seq<T>>)
    ensures r.Some? <==> forall i :: 0 <= i < |os| ==> os[i].Some?
    ensures r.Some? ==> |r.value| == |os| && forall i :: 0 <= i < |os| ==> os[i] == Some(r.value[i])
  {
    if os == [] then Some([])
    else
      match (os[0], AllOf(os[1..]))
      case (Some(x), Some(xs)) => Some([x] + xs)
      case _ => None
  }

  function ReadRow(d: Dialect, row: seq<Written>): Option<seq<Literal>> {
    AllOf(seq(|row|, i requires 0 <= i < |row| => ReadValue(d, row[i])))
  }

  function ReadRows(d: Dialect, rows: seq<seq<Written>>): Option<seq<seq<Literal>>> {
    AllOf(seq(|rows|, i requires 0 <= i < |rows| => ReadRow(d, rows[i])))
  }

  function ReadColumns(d: Dialect, columns: seq<Name>): Option<seq<string>> {
    AllOf(seq(|columns|, i requires 0 <= i < |columns| => ReadColumn(d, columns[i])))
  }

  /** Python's truth of a value: neither zero nor an empty string. */
  predicate Truthy(v: Literal) {
    match v
    case Number(n) => n != 0
    case Text(s) => s != ""
  }

  predicate AllTruthy(row: seq<Literal>) {
    forall v <- row :: Truthy(v)
  }

  /** Columns paired with values: as many as the shorter has, a later column over an earlier one of its name. */
  function ZipDict(columns: seq<string>, row: seq<Literal>): Row {
    var n := if |columns| < |row| then |columns| else |row|;
    ZipFirst(columns, row, n)
  }

  function ZipFirst(columns: seq<string>, row: seq<Literal>, n: nat): Row
    requires n <= |columns| && n <= |row|
  {
    if n == 0 then map[] else ZipFirst(columns, row, n - 1)[columns[n - 1] := row[n - 1]]
  }

  function ZipAll(columns: seq<string>, rows: seq<seq<Literal>>): (r: seq<Row>)
    ensures |r| == |rows| && forall i :: 0 <= i < |r| ==> r[i] == ZipDict(columns, rows[i])
  {
    seq(|rows|, i requires 0 <= i < |rows| => ZipDict(columns, rows[i]))
  }

  /** The names are those that have a value. */
  lemma {:induction false} ZippedNames(columns: seq<string>, row: seq<Literal>, n: nat)
    requires n <= |columns| && n <= |row|
    ensures ZipFirst(columns, row, n).Keys == set c | c in columns[..n]
  {
    if n > 0 {
      ZippedNames(columns, row, n - 1);
      assert columns[..n] == columns[..n - 1] + [columns[n - 1]];
    }
  }

  /** A name has the value at its place, if it is not named again. */
  lemma {:induction false} ZippedAt(columns: seq<string>, row: seq<Literal>, n: nat, i: nat)
    requires i < n <= |columns| && n <= |row| && forall j :: i < j < n ==> columns[j] != columns[i]
    ensures columns[i] in ZipFirst(columns, row, n) && ZipFirst(columns, row, n)[columns[i]] == row[i]
    decreases n
  {
    if i < n - 1 {
      ZippedAt(columns, row, n - 1, i);
    }
  }

  /** `to_values` and `to_insert_call`: values are taken only from two or more rows without a falsy one. */
  function ToInsert(columns: seq<string>, rows: seq<seq<Literal>>): Insert {
    if |rows| > 1 && forall i :: 0 <= i < |rows| ==> AllTruthy(rows[i])
    then Values(ZipAll(columns, rows))
    else Query(columns, rows)
  }

  /** The INSERT as parsed, or None where un-escaping a token raises an error. */
  function ReadInsert(d: Dialect, s: Statement): Option<Insert> {
    match (ReadColumns(d, s.columns), ReadRows(d, s.rows))
    case (Some(columns), Some(rows)) => Some(ToInsert(columns, rows))
    case _ => None
  }

  /* ---------- round trip ---------- */

  predicate HasAll(row: Row, columns: seq<string>) {
    forall i :: 0 <= i < |columns| ==> columns[i] in row
  }

  predicate Picked(row: Row, columns: seq<string>, vs: seq<Literal>) {
    |vs| == |columns| && forall i :: 0 <= i < |columns| ==> columns[i] in row && vs[i] == row[columns[i]]
  }

  lemma {:induction false} PickHasAll(row: Row, columns: seq<string>)
    ensures Pick(row, columns).Some? <==> HasAll(row, columns)
    ensures Pick(row, columns).Some? ==> Picked(row, columns, Pick(row, columns).value)
  {
    if columns != [] {
      var k := |columns| - 1;
      PickHasAll(row, columns[..k]);
      assert columns == columns[..k] + [columns[k]];
      HasOneMore(row, columns[..k], columns[k]);
    }
  }

  lemma HasOneMore(row: Row, columns: seq<string>, c: string)
    ensures HasAll(row, columns + [c]) <==> HasAll(row, columns) && c in row
    ensures forall vs :: c in row && Picked(row, columns, vs) ==> Picked(row, columns + [c], vs + [row[c]])
  {
    assert (columns + [c])[|columns|] == c;
    assert forall i :: 0 <= i < |columns| ==> (columns + [c])[i] == columns[i];
  }

  lemma {:induction false} PickAllHasAll(rows: seq<Row>, columns: seq<string>)
    ensures PickAll(rows, columns).Some? <==> forall i :: 0 <= i < |rows| ==> Pick(rows[i], columns).Some?
    ensures PickAll(rows, columns).Some? ==>
      var all := PickAll(rows, columns).value;
      |all| == |rows| && forall i :: 0 <= i < |rows| ==> Pick(rows[i], columns) == Some(all[i])
  {
    if rows != [] {
      PickAllHasAll(rows[..|rows| - 1], columns);
    }
  }

  ghost predicate Zipped(r: Row, columns: seq<string>, vs: seq<Literal>)
    requires |columns| <= |vs|
  {
    && r.Keys == (set c | c in columns)
    && forall i :: 0 <= i < |columns| ==> columns[i] in r && r[columns[i]] == vs[i]
  }

  lemma {:induction false} ZipFirstHas(columns: seq<string>, vs: seq<Literal>, n: nat)
    requires n <= |columns| == |vs| && Distinct(columns)
    ensures Zipped(ZipFirst(columns, vs, n), columns[..n], vs)
  {
    hide Distinct, Zipped;
    if n == 0 {
      NothingZipped(columns, vs);
    } else {
      ZipFirstHas(columns, vs, n - 1);
      LastIsNew(columns, n - 1);
      assert columns[..n] == columns[..n - 1] + [columns[n - 1]];
      ZippedOneMore(ZipFirst(columns, vs, n - 1), columns[..n - 1], vs, columns[n - 1]);
    }
  }

  lemma NothingZipped(columns: seq<string>, vs: seq<Literal>)
    ensures Zipped(map[], columns[..0], vs)
  {
  }

  lemma ZippedOneMore(r: Row, columns: seq<string>, vs: seq<Literal>, c: string)
    requires |columns| < |vs| && Zipped(r, columns, vs) && c !in columns
    ensures Zipped(r[c := vs[|columns|]], columns + [c], vs)
  {
  }

  lemma LastIsNew(columns: seq<string>, k: nat)
    requires k < |columns| && Distinct(columns)
    ensures columns[k] !in columns[..k] && forall i :: 0 <= i < k ==> columns[i] != columns[k]
  {
  }

  /** Zipping a row with the columns it was picked by gives it back. */
  lemma PickThenZip(row: Row, columns: seq<string>)
    requires Lists(columns, row.Keys)
    ensures Pick(row, columns).Some? && ZipDict(columns, Pick(row, columns).value) == row
  {
    PickHasAll(row, columns);
    var vs := Pick(row, columns).value;
    ZipFirstHas(columns, vs, |columns|);
    assert columns[..|columns|] == columns;
    var r := ZipDict(columns, vs);
    assert r.Keys == row.Keys;
    forall c | c in row ensures r[c] == row[c] {
      var i :| 0 <= i < |columns| && columns[i] == c;
    }
  }

  /* ---------- which values and columns come back ---------- */

  /** A number, or a string that survives its quotes. */
  predicate Readable(v: Literal) {
    v.Text? ==> Quotes.Survives(v.s, Quotes.BOTH, true)
  }

  predicate ComesBack(v: Literal) {
    v != Number(0) && v != Text("") && Readable(v)
  }

  /** Left without quotes, or surviving them. */
  predicate ColumnComesBack(d: Dialect, c: string) {
    d.shouldQuote(c) ==> Quotes.Survives(c, {'"'}, false)
  }

  lemma ValueRoundTrip(d: Dialect, v: Literal)
    ensures ReadValue(d, WriteValue(v)) == Some(v) <==> Readable(v)
  {
    if v.Text? {
      hide Quotes.SingleLiteral, Quotes.Survives;
      Quotes.LiteralRoundTrip(v.s, "", d.named);
    }
  }

  /** A column is read as itself, or as a shorter name, or not at all. */
  lemma ColumnRoundTrip(d: Dialect, c: string)
    ensures ColumnComesBack(d, c) ==> ReadColumn(d, WriteColumn(d, c)) == Some(c)
    ensures var r := ReadColumn(d, WriteColumn(d, c)); r.Some? && !ColumnComesBack(d, c) ==> |r.value| < |c|
  {
    hide Quotes.DoubleColumn, Quotes.BacktickColumn, Quotes.Survives;
    if d.shouldQuote(c) {
      Quotes.IdentifierRoundTrip(c, "", d.named);
      if !ColumnComesBack(d, c) {
        Quotes.IdentifierShrinks(c, d.named);
      }
    }
  }

  /** If some column does not come back, there is a longest one. */
  lemma {:induction false} LongestLost(d: Dialect, columns: seq<string>) returns (k: nat)
    requires exists i :: 0 <= i < |columns| && !ColumnComesBack(d, columns[i])
    ensures k < |columns| && !ColumnComesBack(d, columns[k])
    ensures forall i :: 0 <= i < |columns| && !ColumnComesBack(d, columns[i]) ==> |columns[i]| <= |columns[k]|
  {
    hide ColumnComesBack;
    var n := |columns| - 1;
    var before := columns[..n];
    if exists i :: 0 <= i < n && !ColumnComesBack(d, before[i]) {
      k := LongestLost(d, before);
      assert columns[k] == before[k];
      assert forall i :: 0 <= i < n ==> columns[i] == before[i];
      if !ColumnComesBack(d, columns[n]) && |columns[n]| > |columns[k]| {
        k := n;
      }
    } else {
      assert forall i :: 0 <= i < n ==> columns[i] == before[i];
      k := n;
    }
  }

  /** Names that are read again as all the columns are the columns themselves. */
  lemma ColumnsRoundTrip(d: Dialect, columns: seq<string>, names: seq<string>)
    requires ReadColumns(d, WriteColumns(d, columns)) == Some(names) && forall c <- columns :: c in names
    ensures names == columns && forall c <- columns :: ColumnComesBack(d, c)
  {
    hide ColumnComesBack, ReadColumn, WriteColumn;
    assert |names| == |columns|;
    forall i | 0 <= i < |columns|
      ensures ReadColumn(d, WriteColumn(d, columns[i])) == Some(names[i])
    {
      assert WriteColumns(d, columns)[i] == WriteColumn(d, columns[i]);
    }
    if exists i :: 0 <= i < |columns| && !ColumnComesBack(d, columns[i]) {
      var k := LongestLost(d, columns);
      assert columns[k] in names;
      var j :| 0 <= j < |names| && names[j] == columns[k];
      ColumnRoundTrip(d, columns[j]);
      assert false;
    }
    forall i | 0 <= i < |columns| ensures names[i] == columns[i] {
      ColumnRoundTrip(d, columns[i]);
    }
  }

  predicate AllComeBack(row: seq<Literal>) {
    forall v <- row :: ComesBack(v)
  }

  predicate AllReadable(row: seq<Literal>) {
    forall v <- row :: Readable(v)
  }

  lemma ReadRowAt(d: Dialect, vs: seq<Literal>)
    ensures ReadRow(d, WriteRow(vs)) == Some(vs) <==> AllReadable(vs)
    ensures AllComeBack(vs) <==> AllTruthy(vs) && AllReadable(vs)
  {
    hide ReadValue, WriteValue, Readable, Truthy;
    forall v ensures Truthy(v) <==> v != Number(0) && v != Text("") {
      FalsyValues(v);
    }
    var ws, read := WriteRow(vs), ReadRow(d, WriteRow(vs));
    forall i | 0 <= i < |vs| ensures ReadValue(d, ws[i]) == Some(vs[i]) <==> Readable(vs[i]) {
      ValueRoundTrip(d, vs[i]);
    }
    if AllReadable(vs) {
      assert forall i :: 0 <= i < |vs| ==> vs[i] in vs;
      assert read.Some? && read.value == vs;
    } else {
      var i :| 0 <= i < |vs| && !Readable(vs[i]);
      assert ReadValue(d, ws[i]) != Some(vs[i]);
    }
  }

  predicate RowComesBack(row: Row) {
    forall c <- row :: ComesBack(row[c])
  }

  lemma FalsyValues(v: Literal)
    ensures Truthy(v) <==> v != Number(0) && v != Text("")
  {
  }

  lemma PickedComesBack(row: Row, columns: seq<string>)
    requires Lists(columns, row.Keys) && Pick(row, columns).Some?
    ensures AllComeBack(Pick(row, columns).value) <==> RowComesBack(row)
  {
    hide ComesBack;
    PickHasAll(row, columns);
    var vs := Pick(row, columns).value;
    if AllComeBack(vs) {
      forall c | c in row ensures ComesBack(row[c]) {
        var i :| 0 <= i < |columns| && columns[i] == c;
        assert vs[i] in vs;
      }
    }
  }

  lemma HasAllColumns(rows: seq<Row>, columns: seq<string>, i: nat)
    requires Lists(columns, Columns(rows)) && i < |rows|
    ensures HasAll(rows[i], columns) <==> rows[i].Keys == Columns(rows)
  {
    assert forall c :: c in rows[i] ==> c in Columns(rows);
    if HasAll(rows[i], columns) {
      forall c | c in Columns(rows) ensures c in rows[i] {
        assert c in columns;
      }
    }
  }

  /** Zipping with as many values as columns can be undone. */
  lemma ZipDetermines(row: Row, columns: seq<string>, vs: seq<Literal>)
    requires Lists(columns, row.Keys) && |vs| == |columns| && ZipDict(columns, vs) == row
    ensures Pick(row, columns) == Some(vs)
  {
    hide Pick, ZipFirst, Distinct;
    ZipFirstHas(columns, vs, |columns|);
    assert columns[..|columns|] == columns;
    PickHasAll(row, columns);
    assert HasAll(row, columns);
    assert Pick(row, columns).value == vs;
  }

  lemma {:induction false} ZipKeys(columns: seq<string>, vs: seq<Literal>, n: nat)
    requires n <= |columns| && n <= |vs|
    ensures forall c <- ZipFirst(columns, vs, n) :: c in columns
  {
    if n > 0 {
      ZipKeys(columns, vs, n - 1);
    }
  }

  /**
    Rows come back, the same columns with the same values in the same order of rows, exactly when
    there are at least two, all have the same columns, every column survives the quotes it is given,
    and every value is neither zero nor empty and survives its quotes. The order in which the columns
    were listed does not matter.
   */
  lemma InsertRoundTrip(d: Dialect, rows: seq<Row>, columns: seq<string>)
    requires Lists(columns, Columns(rows)) && |columns| >= 2 && forall c <- columns :: '.' !in c
    ensures var s := PrintInsert(d, rows, columns);
      s.Some? && ReadInsert(d, s.value) == Some(Values(rows))
      <==>
      && |rows| >= 2 && (forall i :: 0 <= i < |rows| ==> rows[i].Keys == Columns(rows))
      && (forall c <- columns :: ColumnComesBack(d, c))
      && forall i :: 0 <= i < |rows| ==> RowComesBack(rows[i])
  {
    hide Pick, PickAll, ColumnComesBack, RowComesBack, ReadInsert, Columns;
    PickAllHasAll(rows, columns);
    forall i | 0 <= i < |rows|
      ensures Pick(rows[i], columns).Some? <==> rows[i].Keys == Columns(rows)
    {
      PickHasAll(rows[i], columns);
      HasAllColumns(rows, columns, i);
    }
    var picked := PickAll(rows, columns);
    if picked.Some? {
      if |rows| >= 2 && (forall c <- columns :: ColumnComesBack(d, c))
        && forall i :: 0 <= i < |rows| ==> RowComesBack(rows[i]) {
        GoodRowsComeBack(d, rows, columns, picked.value);
      }
      if ReadInsert(d, PrintInsert(d, rows, columns).value) == Some(Values(rows)) {
        RowsThatComeBack(d, rows, columns, picked.value);
      }
    }
  }

  ghost predicate PickedRows(rows: seq<Row>, columns: seq<string>, all: seq<seq<Literal>>) {
    && |all| == |rows|
    && forall i :: 0 <= i < |rows| ==> Lists(columns, rows[i].Keys) && Pick(rows[i], columns) == Some(all[i])
  }

  /** The statement printed for rows picked as `all`. */
  function Printed(d: Dialect, columns: seq<string>, all: seq<seq<Literal>>): Statement {
    Statement(WriteColumns(d, columns), WriteRows(all))
  }

  /** Columns and values that survive their quotes reach the parse action as they were. */
  lemma ReadsBack(d: Dialect, columns: seq<string>, all: seq<seq<Literal>>)
    requires forall c <- columns :: ColumnComesBack(d, c)
    requires forall i :: 0 <= i < |all| ==> AllReadable(all[i])
    ensures ReadInsert(d, Printed(d, columns, all)) == Some(ToInsert(columns, all))
  {
    hide ColumnComesBack, ReadColumn, WriteColumn, ReadRow, WriteRow, AllReadable, ToInsert;
    var names, vals := ReadColumns(d, WriteColumns(d, columns)), ReadRows(d, WriteRows(all));
    forall i | 0 <= i < |columns| ensures ReadColumn(d, WriteColumns(d, columns)[i]) == Some(columns[i]) {
      ColumnRoundTrip(d, columns[i]);
    }
    assert names.Some? && names.value == columns;
    forall i | 0 <= i < |all| ensures ReadRow(d, WriteRows(all)[i]) == Some(all[i]) {
      ReadRowAt(d, all[i]);
    }
    assert vals.Some? && vals.value == all;
  }

  lemma GoodRowsComeBack(d: Dialect, rows: seq<Row>, columns: seq<string>, all: seq<seq<Literal>>)
    requires |rows| >= 2 && PickedRows(rows, columns, all)
    requires forall c <- columns :: ColumnComesBack(d, c)
    requires forall i :: 0 <= i < |rows| ==> RowComesBack(rows[i])
    ensures ReadInsert(d, Printed(d, columns, all)) == Some(Values(rows))
  {
    hide ColumnComesBack, RowComesBack, ReadInsert, AllTruthy, ZipDict, Pick, Lists, AllReadable, AllComeBack;
    forall i | 0 <= i < |rows|
      ensures AllTruthy(all[i]) && AllReadable(all[i]) && ZipDict(columns, all[i]) == rows[i]
    {
      PickedComesBack(rows[i], columns);
      ReadRowAt(d, all[i]);
      PickThenZip(rows[i], columns);
    }
    ReadsBack(d, columns, all);
    assert ZipAll(columns, all) == rows;
  }

  lemma RowsThatComeBack(d: Dialect, rows: seq<Row>, columns: seq<string>, all: seq<seq<Literal>>)
    requires PickedRows(rows, columns, all)
    requires ReadInsert(d, Printed(d, columns, all)) == Some(Values(rows))
    ensures |rows| >= 2 && (forall c <- columns :: ColumnComesBack(d, c))
    ensures forall i :: 0 <= i < |rows| ==> RowComesBack(rows[i])
  {
    hide ColumnComesBack, RowComesBack, ReadColumns, WriteColumns, ReadRow, WriteRow;
    hide AllTruthy, ZipDict, Pick, AllReadable;
    var names := ReadColumns(d, WriteColumns(d, columns)).value;
    var vals := ReadRows(d, WriteRows(all)).value;
    assert |vals| == |all| && ZipAll(names, vals) == rows;
    forall c | c in columns ensures c in names {
      assert c in rows[0];
      NamesOf(names, vals[0]);
    }
    ColumnsRoundTrip(d, columns, names);
    forall i | 0 <= i < |rows| ensures RowComesBack(rows[i]) {
      assert ReadRow(d, WriteRows(all)[i]) == Some(vals[i]);
      PickHasAll(rows[i], columns);
      ReadRowLength(d, all[i]);
      ZipDetermines(rows[i], columns, vals[i]);
      ReadRowAt(d, all[i]);
      PickedComesBack(rows[i], columns);
    }
  }

  lemma NamesOf(columns: seq<string>, vs: seq<Literal>)
    ensures forall c <- ZipDict(columns, vs) :: c in columns
  {
    ZipKeys(columns, vs, if |columns| < |vs| then |columns| else |vs|);
  }

  lemma ReadRowLength(d: Dialect, vs: seq<Literal>)
    ensures var r := ReadRow(d, WriteRow(vs)); r.Some? ==> |r.value| == |vs|
  {
  }

  /* ---------- rows that do not come back ---------- */

  /** One row is parsed as a query, whatever it holds. */
  lemma OneRowIsLost(d: Dialect, row: Row, columns: seq<string>)
    requires Lists(columns, row.Keys) && forall c <- columns :: ColumnComesBack(d, c)
    requires forall c <- row :: Readable(row[c])
    ensures var s := PrintInsert(d, [row], columns);
      s.Some? && ReadInsert(d, s.value) == Some(Query(columns, [Pick(row, columns).value]))
  {
    hide ColumnComesBack, Readable, ReadInsert;
    PickHasAll(row, columns);
    var vs := Pick(row, columns).value;
    PickAllHasAll([row], columns);
    assert PickAll([row], columns).value == [vs];
    assert AllReadable(vs);
    ReadsBack(d, columns, [vs]);
  }

  /** So are rows with a zero among their values. */
  lemma ZeroIsLost(d: Dialect)
    requires !d.shouldQuote("x") && !d.shouldQuote("y")
    ensures var zero, one := map["x" := Number(0), "y" := Number(1)], map["x" := Number(1), "y" := Number(1)];
      var s := PrintInsert(d, [zero, one], ["x", "y"]);
      s.Some? && ReadInsert(d, s.value) == Some(Query(["x", "y"], [[Number(0), Number(1)], [Number(1), Number(1)]]))
  {
    hide ReadInsert, PickAll, Pick;
    var zero, one := map["x" := Number(0), "y" := Number(1)], map["x" := Number(1), "y" := Number(1)];
    var columns, rows := ["x", "y"], [zero, one];
    var all := [[Number(0), Number(1)], [Number(1), Number(1)]];
    PickHasAll(zero, columns);
    PickHasAll(one, columns);
    PickAllHasAll(rows, columns);
    assert Pick(zero, columns).value == all[0] && Pick(one, columns).value == all[1];
    assert PickAll(rows, columns).value == all;
    ReadsBack(d, columns, all);
    assert Number(0) in all[0] && !AllTruthy(all[0]);
  }
}
