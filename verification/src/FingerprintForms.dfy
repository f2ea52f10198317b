// What goes into the fingerprints: how a cell is written, in which order rows stand, under which
// names, and which cells of a row are dropped.

module FingerprintForms {
  import opened Wrappers
  import opened PyBytes
  import opened Sorting
  import opened Json
  import opened CanonicalOrder
  import opened Fingerprint

  // ------------------------------------------------------------------ cells

  // A blob is written two lower-case hexadecimal digits an octet, in order.
  lemma {:induction false} BlobText(a: bytes, octet: byte)
    ensures HexOf([]) == "" && |HexOf([octet])| == 2
    ensures forall c | c in HexOf([octet]) :: '0' <= c <= '9' || 'a' <= c <= 'f'
    ensures octet == 16 * DigitOf(HexOf([octet])[0]) + DigitOf(HexOf([octet])[1])
    ensures HexOf(a + [octet]) == HexOf(a) + HexOf([octet])
  {
    HexSpells(octet / 16);
    HexSpells(octet % 16);
    var h := HexOf([octet]);
    var none: bytes := [octet][1..];
    assert none == [] && HexOf(none) == [];
    assert h == [HEX[octet / 16], HEX[octet % 16]];
    hide DigitOf;
    if a == [] {
      assert a + [octet] == [octet] && HexOf(a) == [];
    } else {
      assert (a + [octet])[1..] == a[1..] + [octet];
      BlobText(a[1..], octet);
    }
  }

  // Other values stand for themselves in both fingerprints; a blob is its hexadecimal in one and an
  // object with its digest in the other.
  lemma CellValues(hash: bytes -> string, n: int, text: string, octets: bytes)
    ensures Plain(NullCell) == Null && Plain(Number(n)) == Int(n) && Plain(TextCell(text)) == Str(text)
    ensures DigestCell(hash, NullCell) == Null && DigestCell(hash, Number(n)) == Int(n)
    ensures DigestCell(hash, TextCell(text)) == Str(text)
    ensures Plain(Blob(octets)) == Str(HexOf(octets))
    ensures DigestCell(hash, Blob(octets)) == Obj([Field("bytes_sha256", Str(hash(octets)))])
  {
  }

  // ------------------------------------------------------------------ rows

  // Rows stand in the order of their texts.
  ghost predicate InTextOrder(texts: seq<string>) {
    forall i, j | 0 <= i < j < |texts| :: texts[i] == texts[j] || Precedes(texts[i], texts[j])
  }

  lemma SortedInOrder(texts: seq<string>)
    ensures InTextOrder(Sorted(TextLeq, texts)) && multiset(Sorted(TextLeq, texts)) == multiset(texts)
  {
    TextOrder();
    SortedAscends(TextLeq, texts);
    var r := Sorted(TextLeq, texts);
    hide TextLeq, Sorted, Precedes;
    forall i, j | 0 <= i < j < |r| ensures r[i] == r[j] || Precedes(r[i], r[j]) {
      assert TextLeq(r[i], r[j]);
      TextLeqExactly(r[i], r[j]);
    }
  }

  // The text of a table's rows lists them, each as often as it occurs, in the order of their own
  // texts.
  lemma FormRows(t: Table)
    ensures TableForm(t).columns == t.columns && TableForm(t).count == |t.rows|
    ensures exists items: seq<Json> ::
              && TableForm(t).text == EncodeAscii(Arr(items))
              && multiset(items) == multiset(RowsJson(Plain, t.rows))
              && InTextOrder(Texts(items))
  {
    var items := Ordered(RowsJson(Plain, t.rows));
    RowOrder();
    SortedAscends(RowLeq, RowsJson(Plain, t.rows));
    hide EncodeAscii, Sorted, Precedes, TextLeq, RowJson;
    forall i, j | 0 <= i < j < |items| ensures Texts(items)[i] == Texts(items)[j] || Precedes(Texts(items)[i], Texts(items)[j]) {
      assert RowLeq(items[i], items[j]);
      TextLeqExactly(EncodeAscii(items[i]), EncodeAscii(items[j]));
    }
  }

  // A snapshot is an object of the schema and the texts of the rows, in order.
  lemma SnapshotRows(schema: string, texts: seq<string>)
    ensures exists rows: seq<string> ::
              && SnapshotText(schema, texts) == EncodeAscii(Obj([Field("schema", Str(schema)), Field("rows", Arr(Strings(rows)))]))
              && multiset(rows) == multiset(texts) && InTextOrder(rows)
  {
    SortedInOrder(texts);
    hide EncodeAscii, InTextOrder, Sorted;
  }

  // What stands for a table under its name
  lemma EntrySpelled(hash: string -> string, t: Table)
    ensures Entry(hash, t)
         == Obj([Field("columns", Arr(Strings(t.columns))), Field("count", Int(|t.rows|)),
                 Field("sha256", Str(hash(TableForm(t).text)))])
  {
    hide EncodeAscii, Ordered;
  }

  // ------------------------------------------------------------------ dropped cells

  // Only updated_at of worker_registrations is ever dropped, and only when asked.
  lemma IgnoredExactly(ignore: bool, name: string, column: string)
    ensures Ignored(ignore, name) == Some(column) <==> ignore && name == "worker_registrations" && column == "updated_at"
  {
  }

  // A row keeps, in order, the cells of all other columns.
  lemma {:induction false} KeptInOrder(
    columns: seq<string>, row: Line, more: seq<string>, later: Line, ignored: Option<string>)
    requires |columns| == |row| && |more| == |later|
    ensures Kept(columns + more, row + later, ignored) == Kept(columns, row, ignored) + Kept(more, later, ignored)
  {
    if later == [] {
      assert columns + more == columns && row + later == row;
    } else {
      var n := |later| - 1;
      assert (columns + more)[..|columns + more| - 1] == columns + more[..n];
      assert (row + later)[..|row + later| - 1] == row + later[..n];
      KeptInOrder(columns, row, more[..n], later[..n], ignored);
    }
  }

  lemma KeptOrNot(column: string, cell: Cell, ignored: Option<string>)
    ensures Kept([column], [cell], ignored) == if ignored == Some(column) then [] else [cell]
  {
    assert [column][..0] == [] && [cell][..0] == [] && Kept([], [], ignored) == [];
  }
}
