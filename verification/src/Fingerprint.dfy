// Database fingerprints: rows are normalized, put in the order of their encodings, and digested.

module Fingerprint {
  import opened Wrappers
  import opened PyBytes
  import opened Sorting
  import opened Json
  import opened JsonProofs

  // A SQLite value, REAL aside.
  datatype Cell = NullCell | Number(n: int) | TextCell(text: string) | Blob(octets: bytes)

  type Line = seq<Cell>

  datatype Table = Table(columns: seq<string>, rows: seq<Line>)

  // ------------------------------------------------------------------ rows as JSON

  function HexOf(octets: bytes): string {
    if octets == [] then [] else [HEX[octets[0] / 16], HEX[octets[0] % 16]] + HexOf(octets[1..])
  }

  // The first script writes a blob as its hexadecimal text.
  function Plain(c: Cell): Json {
    match c
    case NullCell => Null
    case Number(n) => Int(n)
    case TextCell(text) => Str(text)
    case Blob(octets) => Str(HexOf(octets))
  }

  // The second writes an object holding a digest of it.
  function DigestCell(hash: bytes -> string, c: Cell): (r: Json)
    ensures Settled(r)
  {
    if c.Blob? then
      var fields := [Field("bytes_sha256", Str(hash(c.octets)))];
      assert Settled(fields[0].value);
      Obj(fields)
    else Plain(c)
  }

  function Digested(hash: bytes -> string): Cell -> Json {
    (c: Cell) => DigestCell(hash, c)
  }

  function RowJson(norm: Cell -> Json, row: Line): Json {
    Arr(Map(norm, row))
  }

  function RowsJson(norm: Cell -> Json, rows: seq<Line>): (r: seq<Json>)
    ensures |r| == |rows| && forall i | 0 <= i < |r| :: r[i] == RowJson(norm, rows[i])
  {
    Map((row: Line) => RowJson(norm, row), rows)
  }

  // Values that canonical form leaves alone.
  predicate Settled(v: Json) {
    match v
    case Arr(items) => forall i | 0 <= i < |items| :: Settled(items[i])
    case Obj(fields) => |fields| == 1 && Settled(fields[0].value)
    case _ => true
  }

  lemma {:induction false} SettledCanon(v: Json)
    requires Settled(v)
    ensures Canon(v) == v
    decreases v
  {
    match v
    case Arr(items) =>
      forall i | 0 <= i < |items| ensures CanonItems(items)[i] == items[i] {
        SettledCanon(items[i]);
      }
    case Obj(fields) =>
      SettledCanon(fields[0].value);
      assert CanonFields(fields) == fields;
      assert Sorted(KeyLeq, fields[1..]) == [];
    case _ =>
  }

  lemma SettledText(a: Json, b: Json)
    requires Settled(a) && Settled(b)
    ensures EncodeAscii(a) == EncodeAscii(b) <==> a == b
  {
    EncodeInjective(a, b);
    SettledCanon(a);
    SettledCanon(b);
  }

  // ------------------------------------------------------------------ table forms

  predicate RowLeq(a: Json, b: Json) {
    TextLeq(EncodeAscii(a), EncodeAscii(b))
  }

  // What one table contributes before digesting: its columns, its row count, and the text of its
  // rows in the order of their encodings.
  datatype Form = Form(columns: seq<string>, count: nat, text: string)

  function Ordered(rows: seq<Json>): seq<Json> {
    Sorted(RowLeq, rows)
  }

  function TableForm(t: Table): Form {
    Form(t.columns, |t.rows|, EncodeAscii(Arr(Ordered(RowsJson(Plain, t.rows)))))
  }

  lemma RowOrder()
    ensures TotalOrder(RowLeq)
  {
    TextOrder();
  }

  lemma OrderedSame(a: seq<Json>, b: seq<Json>)
    requires (forall v | v in a :: Settled(v)) && forall v | v in b :: Settled(v)
    ensures EncodeAscii(Arr(Ordered(a))) == EncodeAscii(Arr(Ordered(b))) <==> multiset(a) == multiset(b)
  {
    RowOrder();
    forall x, y | x in a && y in a && RowLeq(x, y) && RowLeq(y, x) ensures x == y {
      TextLeqTotal(EncodeAscii(x), EncodeAscii(y));
      SettledText(x, y);
    }
    SortedSame(RowLeq, a, b);
    OrderedSettled(a);
    OrderedSettled(b);
    SettledText(Arr(Ordered(a)), Arr(Ordered(b)));
  }

  lemma OrderedSettled(a: seq<Json>)
    requires forall v | v in a :: Settled(v)
    ensures Settled(Arr(Ordered(a)))
  {
    var r := Ordered(a);
    forall i | 0 <= i < |r| ensures Settled(r[i]) {
      assert r[i] in multiset(r);
      assert r[i] in a;
    }
  }

  lemma PlainSettled(rows: seq<Line>)
    ensures forall v | v in RowsJson(Plain, rows) :: Settled(v)
  {
  }

  // Two tables have one form exactly when they have the same columns and the same rows as
  // normalized, each as often.
  lemma TableForms(a: Table, b: Table)
    ensures TableForm(a) == TableForm(b)
       <==> a.columns == b.columns && multiset(RowsJson(Plain, a.rows)) == multiset(RowsJson(Plain, b.rows))
  {
    PlainSettled(a.rows);
    PlainSettled(b.rows);
    OrderedSame(RowsJson(Plain, a.rows), RowsJson(Plain, b.rows));
    if multiset(RowsJson(Plain, a.rows)) == multiset(RowsJson(Plain, b.rows)) {
      assert |multiset(RowsJson(Plain, a.rows))| == |a.rows| && |multiset(RowsJson(Plain, b.rows))| == |b.rows|;
    }
  }

  // In particular, where the rows lie in the file never matters.
  lemma RowsAnywhere(a: Table, b: Table)
    requires a.columns == b.columns && multiset(a.rows) == multiset(b.rows)
    ensures TableForm(a) == TableForm(b)
  {
    MapPermutes((row: Line) => RowJson(Plain, row), a.rows, b.rows);
    TableForms(a, b);
  }

  // ------------------------------------------------------------------ dictionaries by name

  // The names of a database's tables, each once.
  predicate Lists<T>(names: seq<string>, db: map<string, T>) {
    Distinct(names) && (forall name | name in names :: name in db) && forall name | name in db :: name in names
  }

  function Dict(names: seq<string>, value: string -> Json): (r: seq<Field>)
    ensures |r| == |names| && forall i | 0 <= i < |r| :: r[i] == Field(names[i], value(names[i]))
  {
    seq(|names|, i requires 0 <= i < |names| => Field(names[i], value(names[i])))
  }

  // Dictionaries have one text exactly when they have the same names, and the same value for each.
  lemma DictTexts(a: seq<string>, f: string -> Json, b: seq<string>, g: string -> Json)
    requires Distinct(a) && Distinct(b)
    requires (forall name | name in a :: WellKeyed(f(name))) && forall name | name in b :: WellKeyed(g(name))
    ensures EncodeAscii(Obj(Dict(a, f))) == EncodeAscii(Obj(Dict(b, g)))
       <==> (forall name :: name in a <==> name in b) && forall name | name in a :: SameValue(f(name), g(name))
  {
    var xs, ys := Dict(a, f), Dict(b, g);
    assert forall i | 0 <= i < |a| :: a[i] in a;
    assert forall i | 0 <= i < |b| :: b[i] in b;
    hide EncodeAscii;
    CanonicalText(Obj(xs), Obj(ys));
    SameLength(a, b);
    hide WellKeyed, Dict, Distinct;
    forall i | 0 <= i < |a| ensures HasField(xs[i], ys) <==> a[i] in b && SameValue(f(a[i]), g(a[i])) {
      FieldThere(xs[i], b, g);
    }
    assert (forall i | 0 <= i < |a| :: a[i] in b) <==> forall name | name in a :: name in b;
  }

  lemma FieldThere(x: Field, names: seq<string>, value: string -> Json)
    ensures HasField(x, Dict(names, value)) <==> x.key in names && SameValue(x.value, value(x.key))
  {
    var ys := Dict(names, value);
    if x.key in names {
      var j :| 0 <= j < |names| && names[j] == x.key;
      assert ys[j] == Field(x.key, value(x.key));
    }
  }

  // Lists without repetition, one within the other: of one length exactly when equal as sets.
  lemma SameLength(a: seq<string>, b: seq<string>)
    requires Distinct(a) && Distinct(b)
    ensures (forall name | name in a :: name in b) ==> (|a| == |b| <==> forall name | name in b :: name in a)
  {
    if forall name | name in a :: name in b {
      DistinctCounts(a);
      DistinctCounts(b);
      assert multiset(a) <= multiset(b);
      if |a| == |b| {
        assert |multiset(b) - multiset(a)| == 0;
        assert multiset(b) == multiset(a) + (multiset(b) - multiset(a));
        assert forall name | name in b :: name in multiset(b) && name in multiset(a);
      }
      if forall name | name in b :: name in a {
        assert multiset(a) == multiset(b);
        assert |a| == |multiset(a)| && |b| == |multiset(b)|;
      }
    }
  }

  // ------------------------------------------------------------------ the whole database

  // What stands for one table under its name
  function Entry(hash: string -> string, t: Table): Json {
    var form := TableForm(t);
    Obj([Field("columns", Arr(Strings(form.columns))), Field("count", Int(form.count)), Field("sha256", Str(hash(form.text)))])
  }

  function TableEntry(hash: string -> string, db: map<string, Table>): string -> Json {
    name => if name in db then Entry(hash, db[name]) else Null
  }

  // The text whose digest is the fingerprint
  function DatabaseText(hash: string -> string, names: seq<string>, db: map<string, Table>): string {
    EncodeAscii(Obj(Dict(names, TableEntry(hash, db))))
  }

  // Equal fingerprints before their last digest are databases of the same tables, each with the
  // same columns and the same rows as normalized, or with rows of two texts of one digest.
  lemma DatabaseTexts(
    hash: string -> string, names: seq<string>, a: map<string, Table>, others: seq<string>, b: map<string, Table>)
    requires Lists(names, a) && Lists(others, b)
    ensures DatabaseText(hash, names, a) == DatabaseText(hash, others, b)
       <==> a.Keys == b.Keys && forall name | name in a && name in b :: SameTable(hash, a[name], b[name])
  {
    var f, g := TableEntry(hash, a), TableEntry(hash, b);
    hide Entry, EncodeAscii, SameTable, SameValue, WellKeyed, Dict;
    EntriesKeyed(hash, a);
    EntriesKeyed(hash, b);
    DictTexts(names, f, others, g);
    NamesSame(names, a, others, b);
    forall name | name in a && name in b ensures SameValue(f(name), g(name)) <==> SameTable(hash, a[name], b[name]) {
      EntriesSame(hash, a[name], b[name]);
    }
  }

  lemma NamesSame<T>(names: seq<string>, a: map<string, T>, others: seq<string>, b: map<string, T>)
    requires Lists(names, a) && Lists(others, b)
    ensures (forall name :: name in names <==> name in others) <==> a.Keys == b.Keys
    ensures forall name :: name in names <==> name in a
  {
  }

  predicate SameTable(hash: string -> string, a: Table, b: Table) {
    && a.columns == b.columns
    && (multiset(RowsJson(Plain, a.rows)) == multiset(RowsJson(Plain, b.rows))
        || (|a.rows| == |b.rows| && Collide(hash, TableForm(a).text, TableForm(b).text)))
  }

  lemma EntriesKeyed(hash: string -> string, db: map<string, Table>)
    ensures forall name :: WellKeyed(TableEntry(hash, db)(name))
  {
    hide Entry;
    forall name: string ensures WellKeyed(TableEntry(hash, db)(name)) {
      if name in db {
        EntryKeyed(hash, db[name]);
      }
    }
  }

  lemma EntryKeyed(hash: string -> string, t: Table)
    ensures WellKeyed(Entry(hash, t))
  {
  }

  lemma EntriesSame(hash: string -> string, a: Table, b: Table)
    ensures SameValue(Entry(hash, a), Entry(hash, b)) <==> SameTable(hash, a, b)
  {
    var x, y := TableForm(a), TableForm(b);
    hide EncodeAscii, Ordered;
    TableForms(a, b);
    assert x.columns == a.columns && x.count == |a.rows| && y.columns == b.columns && y.count == |b.rows|;
    hide TableForm;
    EntryFields(hash, x, y);
    if multiset(RowsJson(Plain, a.rows)) == multiset(RowsJson(Plain, b.rows)) {
      assert |multiset(RowsJson(Plain, a.rows))| == |a.rows| && |multiset(RowsJson(Plain, b.rows))| == |b.rows|;
    }
  }

  lemma EntryFields(hash: string -> string, x: Form, y: Form)
    ensures var f := [Field("columns", Arr(Strings(x.columns))), Field("count", Int(x.count)), Field("sha256", Str(hash(x.text)))];
            var g := [Field("columns", Arr(Strings(y.columns))), Field("count", Int(y.count)), Field("sha256", Str(hash(y.text)))];
            SameValue(Obj(f), Obj(g)) <==> x.columns == y.columns && x.count == y.count && hash(x.text) == hash(y.text)
  {
    var f := [Field("columns", Arr(Strings(x.columns))), Field("count", Int(x.count)), Field("sha256", Str(hash(x.text)))];
    var g := [Field("columns", Arr(Strings(y.columns))), Field("count", Int(y.count)), Field("sha256", Str(hash(y.text)))];
    StringsSame(x.columns, y.columns);
    hide Strings;
    assert SameValue(Obj(f), Obj(g)) <==> HasField(f[0], g) && HasField(f[1], g) && HasField(f[2], g);
    assert HasField(f[0], g) <==> SameValue(f[0].value, g[0].value);
    assert HasField(f[1], g) <==> SameValue(f[1].value, g[1].value);
    assert HasField(f[2], g) <==> SameValue(f[2].value, g[2].value);
  }

  lemma StringsSame(a: seq<string>, b: seq<string>)
    ensures SameValue(Arr(Strings(a)), Arr(Strings(b))) <==> a == b
  {
    if SameValue(Arr(Strings(a)), Arr(Strings(b))) {
      forall i | 0 <= i < |a| ensures a[i] == b[i] {
        assert SameValue(Strings(a)[i], Strings(b)[i]);
      }
    }
  }

  // ------------------------------------------------------------------ blobs against text

  lemma OctetApart(x: byte, y: byte)
    requires HEX[x / 16] == HEX[y / 16] && HEX[x % 16] == HEX[y % 16]
    ensures x == y
  {
    HexApartDigits(x / 16, y / 16);
    HexApartDigits(x % 16, y % 16);
  }

  lemma HexApartDigits(i: nat, j: nat)
    requires i < 16 && j < 16 && HEX[i] == HEX[j]
    ensures i == j
  {
  }

  lemma {:induction false} HexApart(a: bytes, b: bytes)
    ensures HexOf(a) == HexOf(b) <==> a == b
  {
    if a != [] && b != [] {
      HexApart(a[1..], b[1..]);
      if HexOf(a) == HexOf(b) {
        var x, y := HexOf(a), HexOf(b);
        assert x[0] == HEX[a[0] / 16] && x[1] == HEX[a[0] % 16] && y[0] == HEX[b[0] / 16] && y[1] == HEX[b[0] % 16];
        OctetApart(a[0], b[0]);
        assert x[2..] == HexOf(a[1..]) && y[2..] == HexOf(b[1..]);
        assert a == [a[0]] + a[1..] && b == [b[0]] + b[1..];
      }
    }
  }

  // Normalization loses exactly one distinction: a blob looks like the text of its hexadecimal.
  lemma PlainTells(a: Cell, b: Cell)
    ensures Plain(a) == Plain(b)
       <==> a == b || (a.Blob? && b == TextCell(HexOf(a.octets))) || (b.Blob? && a == TextCell(HexOf(b.octets)))
  {
    if a.Blob? && b.Blob? {
      HexApart(a.octets, b.octets);
    }
  }

  // So the first fingerprint cannot see a blob replaced by that text; the second can.
  lemma BlobUnseen(column: string, octets: bytes, hash: bytes -> string)
    ensures TableForm(Table([column], [[Blob(octets)]])) == TableForm(Table([column], [[TextCell(HexOf(octets))]]))
    ensures RowJson(Digested(hash), [Blob(octets)]) != RowJson(Digested(hash), [TextCell(HexOf(octets))])
  {
    assert Map(Plain, [Blob(octets)]) == Map(Plain, [TextCell(HexOf(octets))]);
    var x, y := RowsJson(Plain, [[Blob(octets)]]), RowsJson(Plain, [[TextCell(HexOf(octets))]]);
    hide Ordered, EncodeAscii;
    assert x == y;
    assert Map(Digested(hash), [Blob(octets)])[0] != Map(Digested(hash), [TextCell(HexOf(octets))])[0];
  }

  // ------------------------------------------------------------------ snapshots without a column

  // A row's cells outside the ignored column.
  function Kept(columns: seq<string>, row: Line, ignored: Option<string>): Line
    requires |columns| == |row|
  {
    if row == [] then []
    else
      var n := |row| - 1;
      Kept(columns[..n], row[..n], ignored) + if ignored == Some(columns[n]) then [] else [row[n]]
  }

  predicate Rectangular(t: Table) {
    forall row | row in t.rows :: |row| == |t.columns|
  }

  function KeptRows(t: Table, ignored: Option<string>): (r: seq<Line>)
    requires Rectangular(t)
    ensures |r| == |t.rows|
    ensures forall i | 0 <= i < |r| :: t.rows[i] in t.rows && r[i] == Kept(t.columns, t.rows[i], ignored)
  {
    seq(|t.rows|, i requires 0 <= i < |t.rows| => assert t.rows[i] in t.rows; Kept(t.columns, t.rows[i], ignored))
  }

  function Texts(values: seq<Json>): (r: seq<string>)
    ensures |r| == |values| && forall i | 0 <= i < |r| :: r[i] == EncodeAscii(values[i])
  {
    Map(EncodeAscii, values)
  }

  function SnapshotText(schema: string, texts: seq<string>): string {
    EncodeAscii(Obj([Field("schema", Str(schema)), Field("rows", Arr(Strings(Sorted(TextLeq, texts))))]))
  }

  function RowTexts(hash: bytes -> string, t: Table, ignored: Option<string>): (r: seq<string>)
    requires Rectangular(t)
    ensures |r| == |t.rows|
  {
    Texts(RowsJson(Digested(hash), KeptRows(t, ignored)))
  }

  lemma RowTextAt(hash: bytes -> string, t: Table, ignored: Option<string>, i: nat)
    requires Rectangular(t) && i < |t.rows|
    ensures |t.rows[i]| == |t.columns|
    ensures RowTexts(hash, t, ignored)[i] == EncodeAscii(RowJson(Digested(hash), Kept(t.columns, t.rows[i], ignored)))
  {
    hide EncodeAscii, RowJson, Kept;
    assert t.rows[i] in t.rows;
  }

  function Snapshot(hash: bytes -> string, schema: string, t: Table, ignored: Option<string>): string
    requires Rectangular(t)
  {
    SnapshotText(schema, RowTexts(hash, t, ignored))
  }

  // One row's text: columns are dropped and values normalized cell by cell.
  method RowText(hash: bytes -> string, columns: seq<string>, row: Line, ignored: Option<string>) returns (text: string)
    requires |columns| == |row|
    ensures text == EncodeAscii(RowJson(Digested(hash), Kept(columns, row, ignored)))
  {
    hide EncodeAscii;
    var values := [];
    for j := 0 to |row|
      invariant values == Map(Digested(hash), Kept(columns[..j], row[..j], ignored))
    {
      KeptStep(columns, row, ignored, j);
      if ignored != Some(columns[j]) {
        values := values + [Digested(hash)(row[j])];
      }
    }
    assert columns[..|row|] == columns && row[..|row|] == row;
    text := EncodeAscii(Arr(values));
  }

  // table_snapshot, for one table
  method TableSnapshot(hash: bytes -> string, schema: string, t: Table, ignored: Option<string>) returns (text: string)
    requires Rectangular(t)
    ensures text == Snapshot(hash, schema, t, ignored)
  {
    hide EncodeAscii, SnapshotText, RowJson, Kept, RowTexts, Rectangular;
    ghost var all := RowTexts(hash, t, ignored);
    var rows := [];
    for i := 0 to |t.rows|
      invariant rows == all[..i]
    {
      RowTextAt(hash, t, ignored, i);
      var text := RowText(hash, t.columns, t.rows[i], ignored);
      rows := rows + [text];
    }
    assert all[..|t.rows|] == all;
    text := SnapshotText(schema, rows);
  }

  // A stored table and the text that created it.
  datatype Stored = Stored(schema: string, table: Table)

  predicate AllRectangular(db: map<string, Stored>) {
    forall name | name in db :: Rectangular(db[name].table)
  }

  const UPDATED := "updated_at"
  const REGISTRATIONS := "worker_registrations"

  // Only the registrations' time of change may be ignored.
  function Ignored(ignore: bool, name: string): Option<string> {
    if ignore && name == REGISTRATIONS then Some(UPDATED) else None
  }

  function SnapshotOf(octets: bytes -> string, name: string, t: Stored, ignore: bool): string
    requires Rectangular(t.table)
  {
    Snapshot(octets, t.schema, t.table, Ignored(ignore, name))
  }

  function SnapshotEntry(
    hash: string -> string, octets: bytes -> string, db: map<string, Stored>, ignore: bool): string -> Json
    requires AllRectangular(db)
  {
    name => if name in db then Str(hash(SnapshotOf(octets, name, db[name], ignore))) else Null
  }

  lemma SnapshotEntryAt(
    hash: string -> string, octets: bytes -> string, db: map<string, Stored>, ignore: bool, name: string)
    requires AllRectangular(db)
    ensures SnapshotEntry(hash, octets, db, ignore)(name)
         == if name in db then Str(hash(SnapshotOf(octets, name, db[name], ignore))) else Null
  {
    hide Snapshot, Ignored;
  }

  // The aggregate over all tables, before its last digest
  function AggregateText(
    hash: string -> string, octets: bytes -> string, names: seq<string>, db: map<string, Stored>, ignore: bool): string
    requires AllRectangular(db)
  {
    EncodeAscii(Obj(Dict(names, SnapshotEntry(hash, octets, db, ignore))))
  }

  // table_snapshot: the loop over the tables
  method DatabaseSnapshot(
    hash: string -> string, octets: bytes -> string, names: seq<string>, db: map<string, Stored>, ignore: bool)
    returns (text: string)
    requires Lists(names, db) && AllRectangular(db)
    ensures text == AggregateText(hash, octets, names, db, ignore)
  {
    hide EncodeAscii, Snapshot, SnapshotEntry, Rectangular, Ignored;
    ghost var all := Dict(names, SnapshotEntry(hash, octets, db, ignore));
    var hashes := [];
    for i := 0 to |names|
      invariant hashes == all[..i]
    {
      assert names[i] in names;
      var t := db[names[i]];
      var snapshot := TableSnapshot(octets, t.schema, t.table, Ignored(ignore, names[i]));
      SnapshotEntryAt(hash, octets, db, ignore, names[i]);
      hashes := hashes + [Field(names[i], Str(hash(snapshot)))];
    }
    assert all[..|names|] == all;
    text := EncodeAscii(Obj(hashes));
  }

  // Equal aggregates are databases of the same tables, each with the same schema and the same rows
  // outside the ignored column, or with two snapshots of one digest.
  lemma Aggregates(
    hash: string -> string, octets: bytes -> string, names: seq<string>, a: map<string, Stored>, others: seq<string>,
    b: map<string, Stored>, ignore: bool)
    requires Lists(names, a) && Lists(others, b) && AllRectangular(a) && AllRectangular(b)
    ensures AggregateText(hash, octets, names, a, ignore) == AggregateText(hash, octets, others, b, ignore)
       <==> a.Keys == b.Keys
            && forall name | name in a && name in b :: SameStored(hash, octets, name, a[name], b[name], ignore)
  {
    hide EncodeAscii, SnapshotEntry, SameStored, Dict, SameValue, WellKeyed, Rectangular;
    var f, g := SnapshotEntry(hash, octets, a, ignore), SnapshotEntry(hash, octets, b, ignore);
    forall name: string
      ensures WellKeyed(f(name)) && WellKeyed(g(name))
      ensures name in a && name in b ==>
                (SameValue(f(name), g(name)) <==> SameStored(hash, octets, name, a[name], b[name], ignore))
    {
      AtName(hash, octets, a, b, ignore, name);
    }
    DictTexts(names, f, others, g);
    NamesSame(names, a, others, b);
  }

  lemma AtName(
    hash: string -> string, octets: bytes -> string, a: map<string, Stored>, b: map<string, Stored>, ignore: bool,
    name: string)
    requires AllRectangular(a) && AllRectangular(b)
    ensures var x, y := SnapshotEntry(hash, octets, a, ignore)(name), SnapshotEntry(hash, octets, b, ignore)(name);
            && WellKeyed(x) && WellKeyed(y)
            && (name in a && name in b ==>
                  (SameValue(x, y) <==> SameStored(hash, octets, name, a[name], b[name], ignore)))
  {
    hide SnapshotEntry, SnapshotOf, SameStored, Rectangular;
    SnapshotEntryAt(hash, octets, a, ignore, name);
    SnapshotEntryAt(hash, octets, b, ignore, name);
    if name in a && name in b {
      StoredSame(hash, octets, name, a[name], b[name], ignore);
    }
  }

  predicate SameStored(hash: string -> string, octets: bytes -> string, name: string, a: Stored, b: Stored, ignore: bool)
    requires Rectangular(a.table) && Rectangular(b.table)
  {
    || (a.schema == b.schema
        && multiset(Shown(octets, a.table, Ignored(ignore, name))) == multiset(Shown(octets, b.table, Ignored(ignore, name))))
    || Collide(hash, SnapshotOf(octets, name, a, ignore), SnapshotOf(octets, name, b, ignore))
  }

  lemma StoredSame(hash: string -> string, octets: bytes -> string, name: string, a: Stored, b: Stored, ignore: bool)
    requires Rectangular(a.table) && Rectangular(b.table)
    ensures hash(SnapshotOf(octets, name, a, ignore)) == hash(SnapshotOf(octets, name, b, ignore))
       <==> SameStored(hash, octets, name, a, b, ignore)
  {
    hide Snapshot, Shown, Rectangular, Ignored;
    Snapshots(octets, a.schema, a.table, b.schema, b.table, Ignored(ignore, name));
  }

  lemma KeptStep(columns: seq<string>, row: Line, ignored: Option<string>, j: nat)
    requires |columns| == |row| && j < |row|
    ensures Kept(columns[..j + 1], row[..j + 1], ignored)
         == Kept(columns[..j], row[..j], ignored) + if ignored == Some(columns[j]) then [] else [row[j]]
  {
    assert columns[..j + 1][..j] == columns[..j] && row[..j + 1][..j] == row[..j];
  }

  // The rows a snapshot tells of: without the ignored column, normalized.
  function Shown(hash: bytes -> string, t: Table, ignored: Option<string>): seq<Json>
    requires Rectangular(t)
  {
    RowsJson(Digested(hash), KeptRows(t, ignored))
  }

  // The snapshots of two tables are equal exactly when schemas are and the tables agree, row for
  // row and each as often, on every column but the ignored one.
  lemma Snapshots(hash: bytes -> string, p: string, a: Table, q: string, b: Table, ignored: Option<string>)
    requires Rectangular(a) && Rectangular(b)
    ensures Snapshot(hash, p, a, ignored) == Snapshot(hash, q, b, ignored)
       <==> p == q && multiset(Shown(hash, a, ignored)) == multiset(Shown(hash, b, ignored))
  {
    var x, y := Shown(hash, a, ignored), Shown(hash, b, ignored);
    ShownSettled(hash, a, ignored);
    ShownSettled(hash, b, ignored);
    hide SnapshotText, Shown, EncodeAscii, Settled;
    TextsSame(x, y);
    SnapshotTexts(p, Texts(x), q, Texts(y));
  }

  lemma ShownSettled(hash: bytes -> string, t: Table, ignored: Option<string>)
    requires Rectangular(t)
    ensures forall v | v in Shown(hash, t, ignored) :: Settled(v)
  {
    var kept, shown := KeptRows(t, ignored), Shown(hash, t, ignored);
    hide Settled, RowJson, Kept;
    forall i | 0 <= i < |shown| ensures Settled(shown[i]) {
      RowSettled(hash, kept[i]);
    }
  }

  lemma RowSettled(hash: bytes -> string, row: Line)
    ensures Settled(RowJson(Digested(hash), row))
  {
    var cells := Map(Digested(hash), row);
    forall i | 0 <= i < |cells| ensures Settled(cells[i]) {
      assert cells[i] == DigestCell(hash, row[i]);
    }
  }

  lemma SnapshotTexts(p: string, xs: seq<string>, q: string, ys: seq<string>)
    ensures SnapshotText(p, xs) == SnapshotText(q, ys) <==> p == q && multiset(xs) == multiset(ys)
  {
    var a, b := Sorted(TextLeq, xs), Sorted(TextLeq, ys);
    SortedTexts(xs, ys);
    hide EncodeAscii, SameValue, Sorted;
    SnapshotFields(p, a, q, b);
  }

  lemma SortedTexts(xs: seq<string>, ys: seq<string>)
    ensures Sorted(TextLeq, xs) == Sorted(TextLeq, ys) <==> multiset(xs) == multiset(ys)
  {
    TextOrder();
    forall x, y | x in xs && y in xs && TextLeq(x, y) && TextLeq(y, x) ensures x == y {
      TextLeqTotal(x, y);
    }
    SortedSame(TextLeq, xs, ys);
  }

  lemma SnapshotFields(p: string, a: seq<string>, q: string, b: seq<string>)
    ensures EncodeAscii(Obj([Field("schema", Str(p)), Field("rows", Arr(Strings(a)))]))
         == EncodeAscii(Obj([Field("schema", Str(q)), Field("rows", Arr(Strings(b)))]))
       <==> p == q && a == b
  {
    var f := [Field("schema", Str(p)), Field("rows", Arr(Strings(a)))];
    var g := [Field("schema", Str(q)), Field("rows", Arr(Strings(b)))];
    StringsSame(a, b);
    SnapshotKeyed(p, a);
    SnapshotKeyed(q, b);
    hide EncodeAscii, WellKeyed, Strings;
    CanonicalText(Obj(f), Obj(g));
    TwoFields(f, g);
  }

  lemma SnapshotKeyed(p: string, a: seq<string>)
    ensures WellKeyed(Obj([Field("schema", Str(p)), Field("rows", Arr(Strings(a)))]))
  {
  }

  lemma TwoFields(f: seq<Field>, g: seq<Field>)
    requires |f| == 2 && |g| == 2 && f[0].key == g[0].key && f[1].key == g[1].key && f[0].key != f[1].key
    ensures SameValue(Obj(f), Obj(g)) <==> SameValue(f[0].value, g[0].value) && SameValue(f[1].value, g[1].value)
  {
    assert HasField(f[0], g) <==> SameValue(f[0].value, g[0].value);
    assert HasField(f[1], g) <==> SameValue(f[1].value, g[1].value);
    assert SameValue(Obj(f), Obj(g)) <==> HasField(f[0], g) && HasField(f[1], g);
  }

  lemma TextsSame(x: seq<Json>, y: seq<Json>)
    requires (forall v | v in x :: Settled(v)) && forall v | v in y :: Settled(v)
    ensures multiset(Texts(x)) == multiset(Texts(y)) <==> multiset(x) == multiset(y)
  {
    hide EncodeAscii, Settled;
    if multiset(x) == multiset(y) {
      MapPermutes(EncodeAscii, x, y);
    }
    if multiset(Texts(x)) == multiset(Texts(y)) {
      forall v, w | v in x && w in y && EncodeAscii(v) == EncodeAscii(w) ensures v == w {
        SettledText(v, w);
      }
      MapReflects(EncodeAscii, x, y);
    }
  }
}
