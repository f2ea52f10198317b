// Canonical JSON is read back to the value it came from, so it is injective, and it does not
// depend on the order in which fields were inserted.

module JsonProofs {
  import opened Wrappers
  import opened Sorting
  import opened Json

  // ------------------------------------------------------------------ characters and text

  lemma HexDigit(n: nat)
    requires n < 16
    ensures HexValue(HEX[n]) == Some(n)
  {
  }

  lemma HexDigits(n: nat)
    requires n < 0x10000
    ensures n / 0x1000 * 0x1000 + n / 0x100 % 0x10 * 0x100 + n / 0x10 % 0x10 * 0x10 + n % 0x10 == n
  {
    assert n / 0x100 == n / 0x1000 * 0x10 + n / 0x100 % 0x10;
    assert n / 0x10 == n / 0x100 * 0x10 + n / 0x10 % 0x10;
  }

  lemma UnitRoundTrip(n: nat, rest: string)
    requires n < 0x10000
    ensures ReadUnit(Unit(n) + rest) == Some(n)
  {
    var a, b, c, d := n / 0x1000, n / 0x100 % 0x10, n / 0x10 % 0x10, n % 0x10;
    HexDigits(n);
    HexDigit(a);
    HexDigit(b);
    HexDigit(c);
    HexDigit(d);
    hide HexValue;
    var s := Unit(n) + rest;
    assert s[..6] == ['\\', 'u', HEX[a], HEX[b], HEX[c], HEX[d]];
    assert s[2] == s[..6][2] && s[3] == s[..6][3] && s[4] == s[..6][4] && s[5] == s[..6][5];
    assert s[0] == s[..6][0] && s[1] == s[..6][1];
  }

  lemma PairRoundTrip(n: nat, rest: string)
    requires 0x10000 <= n < 0x110000
    ensures var s := Unit(0xD800 + (n - 0x10000) / 0x400) + Unit(0xDC00 + (n - 0x10000) % 0x400) + rest;
            ReadChar(s) == Some((n as char, 12))
  {
    hide Unit, ReadUnit;
    var high, low := 0xD800 + (n - 0x10000) / 0x400, 0xDC00 + (n - 0x10000) % 0x400;
    var s := Unit(high) + Unit(low) + rest;
    UnitShape(high);
    UnitShape(low);
    assert s == Unit(high) + (Unit(low) + rest);
    UnitRoundTrip(high, Unit(low) + rest);
    assert s[6..] == Unit(low) + rest;
    UnitRoundTrip(low, rest);
    assert s[0] == '\\' && s[1] == 'u';
  }

  lemma UnitShape(n: nat)
    requires n < 0x10000
    ensures |Unit(n)| == 6 && Unit(n)[0] == '\\' && Unit(n)[1] == 'u'
  {
  }

  lemma CharRoundTrip(c: char, ascii: bool, rest: string)
    ensures ReadChar(Escape(c, ascii) + rest) == Some((c, |Escape(c, ascii)|))
  {
    hide Unit, ReadUnit;
    var n := c as int;
    if c < ' ' || (ascii && '~' < c) {
      if n < 0x10000 {
        UnitShape(n);
        UnitRoundTrip(n, rest);
      } else {
        UnitShape(0xD800 + (n - 0x10000) / 0x400);
        UnitShape(0xDC00 + (n - 0x10000) % 0x400);
        PairRoundTrip(n, rest);
      }
    }
  }

  lemma {:induction false} TextRoundTrip(text: string, ascii: bool, rest: string)
    ensures ReadText(EscapeAll(text, ascii) + "\"" + rest) == Some((text, rest))
  {
    hide ReadChar, Escape;
    var s := EscapeAll(text, ascii) + "\"" + rest;
    if text == [] {
      assert s[1..] == rest;
    } else {
      var first, later := Escape(text[0], ascii), EscapeAll(text[1..], ascii) + "\"" + rest;
      assert s == first + later;
      CharRoundTrip(text[0], ascii, later);
      assert s[|first|..] == later;
      TextRoundTrip(text[1..], ascii, rest);
      assert [text[0]] + text[1..] == text;
    }
  }

  // ------------------------------------------------------------------ numbers

  predicate NoDigit(s: string) {
    s != [] ==> !IsDigit(s[0])
  }

  predicate Digits(s: string) {
    forall i :: 0 <= i < |s| ==> IsDigit(s[i])
  }

  function Value(s: string, acc: nat): nat
    requires Digits(s)
  {
    if s == [] then acc else Value(s[1..], 10 * acc + (s[0] as int - 48))
  }

  lemma {:induction false} DigitsRead(s: string, acc: nat, rest: string)
    requires Digits(s) && NoDigit(rest)
    ensures ReadDigits(s + rest, acc) == (Value(s, acc), rest)
  {
    if s == [] {
      assert s + rest == rest;
    } else {
      assert (s + rest)[1..] == s[1..] + rest;
      DigitsRead(s[1..], 10 * acc + (s[0] as int - 48), rest);
    }
  }

  lemma {:induction false} ValueAppend(s: string, d: char, acc: nat)
    requires Digits(s) && IsDigit(d)
    ensures Value(s + [d], acc) == 10 * Value(s, acc) + (d as int - 48)
  {
    if s == [] {
      assert (s + [d])[1..] == [];
    } else {
      assert (s + [d])[0] == s[0] && (s + [d])[1..] == s[1..] + [d];
      ValueAppend(s[1..], d, 10 * acc + (s[0] as int - 48));
    }
  }

  lemma {:induction false} NumeralValue(n: nat)
    ensures Value(Numeral(n), 0) == n
  {
    if n < 10 {
      assert Numeral(n)[1..] == [];
    } else {
      NumeralValue(n / 10);
      ValueAppend(Numeral(n / 10), Digit(n % 10), 0);
    }
  }

  lemma NumberRoundTrip(n: int, rest: string)
    requires NoDigit(rest)
    ensures ReadValue(Signed(n) + rest) == Some((Int(n), rest))
  {
    hide ReadValue, Numeral;
    if n < 0 {
      NegativeRead(-n, rest);
    } else {
      NaturalRead(n, rest);
    }
  }

  lemma NumeralRead(n: nat, rest: string)
    requires NoDigit(rest)
    ensures ReadDigits(Numeral(n) + rest, 0) == (n, rest)
  {
    NumeralValue(n);
    DigitsRead(Numeral(n), 0, rest);
  }

  lemma NaturalRead(n: nat, rest: string)
    requires NoDigit(rest)
    ensures ReadValue(Numeral(n) + rest) == Some((Int(n), rest))
  {
    hide Numeral, ReadDigits, ReadText, ReadItems, ReadFields;
    var s := Numeral(n) + rest;
    NumeralRead(n, rest);
    assert s[0] == Numeral(n)[0];
  }

  lemma NegativeRead(n: nat, rest: string)
    requires NoDigit(rest)
    ensures ReadValue("-" + Numeral(n) + rest) == Some((Int(-(n as int)), rest))
  {
    hide Numeral, ReadDigits, ReadText, ReadItems, ReadFields;
    var s := "-" + Numeral(n) + rest;
    NumeralRead(n, rest);
    assert s[0] == '-' && s[1] == Numeral(n)[0];
    assert s[1..] == Numeral(n) + rest;
  }

  // ------------------------------------------------------------------ values

  lemma EmptyArrayRead(rest: string)
    ensures ReadValue("[]" + rest) == Some((Arr([]), rest))
  {
    hide ReadText, ReadItems, ReadFields, ReadDigits;
    var s := "[]" + rest;
    assert s[0] == '[' && "[]" <= s && s[2..] == rest;
  }

  lemma EmptyObjectRead(rest: string)
    ensures ReadValue("{}" + rest) == Some((Obj([]), rest))
  {
    hide ReadText, ReadItems, ReadFields, ReadDigits;
    var s := "{}" + rest;
    assert s[0] == '{' && "{}" <= s && s[2..] == rest;
  }

  lemma WordRead(flag: bool, rest: string)
    ensures ReadValue("null" + rest) == Some((Null, rest))
    ensures ReadValue((if flag then "true" else "false") + rest) == Some((Bool(flag), rest))
  {
    hide ReadText, ReadItems, ReadFields, ReadDigits;
    var s := (if flag then "true" else "false") + rest;
    assert s[0] == if flag then 't' else 'f';
    assert (if flag then "true" else "false") <= s && s[|if flag then "true" else "false"|..] == rest;
    assert "null" <= "null" + rest && ("null" + rest)[4..] == rest;
  }

  lemma ArrayRead(items: seq<Json>, body: string, rest: string)
    requires body != [] && body[0] != ']' && ReadItems(body + "]" + rest) == Some((items, rest))
    ensures ReadValue("[" + body + "]" + rest) == Some((Arr(items), rest))
  {
    hide ReadText, ReadItems, ReadFields, ReadDigits;
    var s := "[" + body + "]" + rest;
    assert s[0] == '[' && s[1] == body[0];
    assert s[1..] == body + "]" + rest;
  }

  lemma ObjectRead(fields: seq<Field>, body: string, rest: string)
    requires body != [] && body[0] != '}' && ReadFields(body + "}" + rest) == Some((fields, rest))
    ensures ReadValue("{" + body + "}" + rest) == Some((Obj(fields), rest))
  {
    hide ReadText, ReadItems, ReadFields, ReadDigits;
    var s := "{" + body + "}" + rest;
    assert s[0] == '{' && s[1] == body[0];
    assert s[1..] == body + "}" + rest;
  }

  lemma StringRead(text: string, ascii: bool, rest: string)
    ensures ReadValue(Quote(text, ascii) + rest) == Some((Str(text), rest))
  {
    hide ReadText, ReadItems, ReadFields, ReadDigits, EscapeAll;
    var s := Quote(text, ascii) + rest;
    assert s[0] == '\"' && s[1..] == EscapeAll(text, ascii) + "\"" + rest;
    TextRoundTrip(text, ascii, rest);
  }

  // What stands in front of a value decides how it is read.
  lemma {:induction false} ValueRoundTrip(v: Json, ascii: bool, rest: string)
    requires NoDigit(rest)
    ensures ReadValue(Render(v, ascii) + rest) == Some((v, rest))
    decreases v, 1, 0
  {
    hide ReadValue, ReadItems, ReadFields, Quote, RenderItems, RenderFields, Signed;
    match v
    case Null => WordRead(true, rest);
    case Bool(flag) => WordRead(flag, rest);
    case Int(number) => NumberRoundTrip(number, rest);
    case Str(text) => StringRead(text, ascii, rest);
    case Arr(items) =>
      if items == [] {
        EmptyArrayRead(rest);
      } else {
        ItemsStart(items, ascii);
        ItemsRoundTrip(items, ascii, rest, v);
        ArrayRead(items, RenderItems(items, ascii), rest);
      }
    case Obj(fields) =>
      if fields == [] {
        EmptyObjectRead(rest);
      } else {
        FieldsStart(fields, ascii);
        FieldsRoundTrip(fields, ascii, rest, v);
        ObjectRead(fields, RenderFields(fields, ascii), rest);
      }
  }

  lemma RenderStart(v: Json, ascii: bool)
    ensures Render(v, ascii) != [] && Render(v, ascii)[0] != ']'
  {
  }

  lemma ItemsStart(items: seq<Json>, ascii: bool)
    requires items != []
    ensures RenderItems(items, ascii) != [] && RenderItems(items, ascii)[0] != ']'
  {
    RenderStart(items[0], ascii);
  }

  lemma FieldsStart(fields: seq<Field>, ascii: bool)
    requires fields != []
    ensures RenderFields(fields, ascii) != [] && RenderFields(fields, ascii)[0] == '\"'
  {
  }

  lemma {:induction false} ItemsRoundTrip(items: seq<Json>, ascii: bool, rest: string, whole: Json)
    requires items != [] && forall i | 0 <= i < |items| :: items[i] < whole
    ensures ReadItems(RenderItems(items, ascii) + "]" + rest) == Some((items, rest))
    decreases whole, 0, |items|
  {
    hide ReadValue, Render;
    var s := RenderItems(items, ascii) + "]" + rest;
    var first := Render(items[0], ascii);
    if |items| == 1 {
      assert s == first + ("]" + rest);
      ValueRoundTrip(items[0], ascii, "]" + rest);
      assert ("]" + rest)[1..] == rest;
      assert items == [items[0]];
    } else {
      var later := RenderItems(items[1..], ascii) + "]" + rest;
      assert s == first + ("," + later);
      ValueRoundTrip(items[0], ascii, "," + later);
      assert ("," + later)[1..] == later;
      ItemsRoundTrip(items[1..], ascii, rest, whole);
      assert [items[0]] + items[1..] == items;
    }
  }

  lemma FieldRoundTrip(field: Field, ascii: bool, rest: string)
    requires NoDigit(rest)
    requires ReadValue(Render(field.value, ascii) + rest) == Some((field.value, rest))
    ensures ReadField(RenderField(field, ascii) + rest) == Some((field, rest))
  {
    hide ReadValue, Render, ReadText, EscapeAll;
    var s := RenderField(field, ascii) + rest;
    var later := ":" + Render(field.value, ascii) + rest;
    assert s[0] == '\"' && s[1..] == EscapeAll(field.key, ascii) + "\"" + later;
    TextRoundTrip(field.key, ascii, later);
    assert later[1..] == Render(field.value, ascii) + rest;
  }

  lemma {:induction false} FieldsRoundTrip(fields: seq<Field>, ascii: bool, rest: string, whole: Json)
    requires fields != [] && forall i | 0 <= i < |fields| :: fields[i].value < whole
    ensures ReadFields(RenderFields(fields, ascii) + "}" + rest) == Some((fields, rest))
    decreases whole, 0, |fields|
  {
    hide ReadField, RenderField, ReadValue, Render;
    var s := RenderFields(fields, ascii) + "}" + rest;
    var first := RenderField(fields[0], ascii);
    if |fields| == 1 {
      assert s == first + ("}" + rest);
      ValueRoundTrip(fields[0].value, ascii, "}" + rest);
      FieldRoundTrip(fields[0], ascii, "}" + rest);
      assert ("}" + rest)[1..] == rest;
      assert fields == [fields[0]];
    } else {
      var later := RenderFields(fields[1..], ascii) + "}" + rest;
      assert s == first + ("," + later);
      ValueRoundTrip(fields[0].value, ascii, "," + later);
      FieldRoundTrip(fields[0], ascii, "," + later);
      assert ("," + later)[1..] == later;
      FieldsRoundTrip(fields[1..], ascii, rest, whole);
      assert [fields[0]] + fields[1..] == fields;
    }
  }

  lemma CanonicalDecodes(v: Json)
    ensures Decode(Encode(v)) == Some(Canon(v)) && Decode(EncodeAscii(v)) == Some(Canon(v))
  {
    ValueRoundTrip(Canon(v), false, "");
    ValueRoundTrip(Canon(v), true, "");
    assert Render(Canon(v), false) + "" == Render(Canon(v), false);
    assert Render(Canon(v), true) + "" == Render(Canon(v), true);
  }

  lemma EncodeInjective(a: Json, b: Json)
    ensures Encode(a) == Encode(b) <==> Canon(a) == Canon(b)
    ensures EncodeAscii(a) == EncodeAscii(b) <==> Canon(a) == Canon(b)
  {
    CanonicalDecodes(a);
    CanonicalDecodes(b);
  }

  // ------------------------------------------------------------------ insertion order

  // The guarantee a Python dict gives: no key twice, at any depth.
  predicate WellKeyed(v: Json) {
    match v
    case Arr(items) => forall i | 0 <= i < |items| :: WellKeyed(items[i])
    case Obj(fields) => DistinctKeys(fields) && forall i | 0 <= i < |fields| :: WellKeyed(fields[i].value)
    case _ => true
  }

  predicate DistinctKeys(fields: seq<Field>) {
    forall i, j | 0 <= i < j < |fields| :: fields[i].key != fields[j].key
  }

  // Equality of values with objects compared as dictionaries.
  predicate SameValue(a: Json, b: Json)
    decreases a
  {
    match (a, b)
    case (Arr(xs), Arr(ys)) => |xs| == |ys| && forall i | 0 <= i < |xs| :: SameValue(xs[i], ys[i])
    case (Obj(xs), Obj(ys)) => |xs| == |ys| && forall i | 0 <= i < |xs| :: HasField(xs[i], ys)
    case (Arr(_), _) => false
    case (Obj(_), _) => false
    case _ => a == b
  }

  predicate HasField(x: Field, ys: seq<Field>)
    decreases x
  {
    exists j | 0 <= j < |ys| :: ys[j].key == x.key && SameValue(x.value, ys[j].value)
  }

  lemma KeyOrder()
    ensures TotalOrder(KeyLeq)
  {
    TextOrder();
  }

  lemma KeysTellApart(fields: seq<Field>)
    requires DistinctKeys(fields)
    ensures forall x, y | x in fields && y in fields && KeyLeq(x, y) && KeyLeq(y, x) :: x == y
  {
    forall x, y | x in fields && y in fields && KeyLeq(x, y) && KeyLeq(y, x)
      ensures x == y
    {
      TextLeqTotal(x.key, y.key);
    }
  }

  lemma {:induction false} DistinctOnce(fields: seq<Field>)
    requires DistinctKeys(fields)
    ensures forall x | x in fields :: multiset(fields)[x] == 1
  {
    if fields != [] {
      assert fields == [fields[0]] + fields[1..];
      DistinctOnce(fields[1..]);
      assert fields[0] !in fields[1..];
      assert multiset(fields) == multiset{fields[0]} + multiset(fields[1..]);
    }
  }

  lemma PermutedKeys(xs: seq<Field>, ys: seq<Field>)
    requires DistinctKeys(xs) && multiset(xs) == multiset(ys)
    requires forall i | 0 <= i < |xs| :: WellKeyed(xs[i].value)
    ensures DistinctKeys(ys) && forall i | 0 <= i < |ys| :: WellKeyed(ys[i].value)
  {
    PermutedApart(xs, ys);
    forall i | 0 <= i < |ys| ensures WellKeyed(ys[i].value) {
      assert ys[i] in multiset(ys);
      var k :| 0 <= k < |xs| && xs[k] == ys[i];
    }
  }

  lemma PermutedApart(xs: seq<Field>, ys: seq<Field>)
    requires DistinctKeys(xs) && multiset(xs) == multiset(ys)
    ensures DistinctKeys(ys)
  {
    DistinctOnce(xs);
    forall y | y in ys ensures y in xs {
      assert y in multiset(ys);
    }
    forall i, j | 0 <= i < j < |ys| ensures ys[i].key != ys[j].key {
      if ys[i].key == ys[j].key {
        assert ys[i] in xs && ys[j] in xs;
        assert ys[i] == ys[j];
        Twice(ys, i, j);
        assert false;
      }
    }
  }

  lemma Twice(ys: seq<Field>, i: nat, j: nat)
    requires i < j < |ys| && ys[i] == ys[j]
    ensures multiset(ys)[ys[i]] >= 2
  {
    assert ys == ys[..j] + [ys[j]] + ys[j + 1..];
    assert ys[i] in ys[..j];
  }

  lemma SameElements(xs: seq<Field>, ys: seq<Field>)
    requires DistinctKeys(xs)
    ensures multiset(xs) == multiset(ys) <==>
            |xs| == |ys| && forall i | 0 <= i < |xs| :: xs[i] in ys
  {
    if multiset(xs) == multiset(ys) {
      assert |xs| == |multiset(xs)| == |multiset(ys)| == |ys|;
      forall i | 0 <= i < |xs|
        ensures xs[i] in ys
      {
        assert xs[i] in multiset(xs);
      }
    }
    if |xs| == |ys| && forall i | 0 <= i < |xs| :: xs[i] in ys {
      ElementsWithin(xs, ys);
    }
  }

  lemma ElementsWithin(xs: seq<Field>, ys: seq<Field>)
    requires DistinctKeys(xs) && |xs| == |ys| && forall i | 0 <= i < |xs| :: xs[i] in ys
    ensures multiset(xs) == multiset(ys)
  {
    DistinctOnce(xs);
    forall x
      ensures multiset(xs)[x] <= multiset(ys)[x]
    {
      if x in multiset(xs) {
        assert x in ys && x in multiset(ys);
      }
    }
    assert multiset(xs) <= multiset(ys);
    assert |multiset(ys) - multiset(xs)| == 0;
    assert multiset(ys) == multiset(xs) + (multiset(ys) - multiset(xs));
  }

  lemma FieldsSame(xs: seq<Field>, ys: seq<Field>)
    requires DistinctKeys(xs) && DistinctKeys(ys)
    requires forall i, j | 0 <= i < |xs| && 0 <= j < |ys| ::
               SameValue(xs[i].value, ys[j].value) <==> Canon(xs[i].value) == Canon(ys[j].value)
    ensures (|xs| == |ys| && forall i | 0 <= i < |xs| :: HasField(xs[i], ys)) <==>
            Sorted(KeyLeq, CanonFields(xs)) == Sorted(KeyLeq, CanonFields(ys))
  {
    hide SameValue, Canon, CanonFields, Sorted;
    var cxs, cys := CanonFields(xs), CanonFields(ys);
    KeyOrder();
    KeysTellApart(cxs);
    SortedSame(KeyLeq, cxs, cys);
    SameElements(cxs, cys);
    forall i | 0 <= i < |xs|
      ensures cxs[i] in cys <==> HasField(xs[i], ys)
    {
      if cxs[i] in cys {
        var j :| 0 <= j < |cys| && cys[j] == cxs[i];
        assert ys[j].key == xs[i].key && SameValue(xs[i].value, ys[j].value);
      }
      if HasField(xs[i], ys) {
        var j :| 0 <= j < |ys| && ys[j].key == xs[i].key && SameValue(xs[i].value, ys[j].value);
        assert cys[j] == cxs[i];
      }
    }
  }

  lemma ItemsSame(xs: seq<Json>, ys: seq<Json>)
    ensures CanonItems(xs) == CanonItems(ys) <==> |xs| == |ys| && forall i | 0 <= i < |xs| :: Canon(xs[i]) == Canon(ys[i])
  {
    hide Canon;
    var cxs, cys := CanonItems(xs), CanonItems(ys);
    if cxs == cys {
      forall i | 0 <= i < |xs| ensures Canon(xs[i]) == Canon(ys[i]) {
        assert cxs[i] == cys[i];
      }
    }
  }

  lemma {:induction false} SameCanon(a: Json, b: Json)
    requires WellKeyed(a) && WellKeyed(b)
    ensures SameValue(a, b) <==> Canon(a) == Canon(b)
    decreases a
  {
    match (a, b)
    case (Arr(xs), Arr(ys)) =>
      forall i | 0 <= i < |xs| && i < |ys|
        ensures SameValue(xs[i], ys[i]) <==> Canon(xs[i]) == Canon(ys[i])
      {
        SameCanon(xs[i], ys[i]);
      }
      ItemsSame(xs, ys);
    case (Obj(xs), Obj(ys)) =>
      forall i, j | 0 <= i < |xs| && 0 <= j < |ys|
        ensures SameValue(xs[i].value, ys[j].value) <==> Canon(xs[i].value) == Canon(ys[j].value)
      {
        SameCanon(xs[i].value, ys[j].value);
      }
      FieldsSame(xs, ys);
    case _ =>
  }

  lemma {:induction false} CanonSame(v: Json)
    ensures SameValue(v, Canon(v))
  {
    match v
    case Arr(items) =>
      forall i | 0 <= i < |items|
        ensures SameValue(items[i], Canon(items[i]))
      {
        CanonSame(items[i]);
      }
    case Obj(fields) =>
      var sorted := Sorted(KeyLeq, CanonFields(fields));
      forall i | 0 <= i < |fields|
        ensures HasField(fields[i], sorted)
      {
        CanonSame(fields[i].value);
        assert CanonFields(fields)[i] in multiset(sorted);
        var j :| 0 <= j < |sorted| && sorted[j] == CanonFields(fields)[i];
      }
    case _ =>
  }

  // Canonical text decodes back to the value it came from.
  lemma CanonicalRoundTrip(v: Json)
    ensures Decode(Encode(v)).Some? && SameValue(v, Decode(Encode(v)).value)
    ensures Decode(EncodeAscii(v)) == Decode(Encode(v))
  {
    CanonicalDecodes(v);
    CanonSame(v);
  }

  // Two values have the same canonical text exactly when they are the same value, insertion
  // order of fields aside. Both output forms agree on this.
  lemma CanonicalText(a: Json, b: Json)
    requires WellKeyed(a) && WellKeyed(b)
    ensures Encode(a) == Encode(b) <==> SameValue(a, b)
    ensures EncodeAscii(a) == EncodeAscii(b) <==> SameValue(a, b)
  {
    EncodeInjective(a, b);
    SameCanon(a, b);
  }
}
